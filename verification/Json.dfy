/** JSON values. An object is an association list in iteration order; numbers stay as text. */
module Json {
  import opened Wrappers

  datatype Json =
    | Null
    | Bool(b: bool)
    | Number(text: string)
    | Str(s: string)
    | Arr(items: seq<Json>)
    | Obj(fields: seq<(string, Json)>)

  /** No key occurs twice in an association list. */
  ghost predicate DistinctKeys(fields: seq<(string, Json)>) {
    forall i, j :: 0 <= i < j < |fields| ==> fields[i].0 != fields[j].0
  }

  /** Every object inside the value has distinct keys, as a parsed JSON map has. */
  ghost predicate WellFormed(v: Json) {
    match v
    case Arr(items) => forall i :: 0 <= i < |items| ==> WellFormed(items[i])
    case Obj(fields) =>
      DistinctKeys(fields) && forall i :: 0 <= i < |fields| ==> WellFormed(fields[i].1)
    case _ => true
  }

  /** The value bound to `key` in an association list. */
  function Lookup(fields: seq<(string, Json)>, key: string): Option<Json> {
    if fields == [] then None
    else if fields[0].0 == key then Some(fields[0].1)
    else Lookup(fields[1..], key)
  }

  /** The first field with a key is the one looked up. */
  lemma {:induction false} LookupFirst(fields: seq<(string, Json)>, i: nat)
    requires i < |fields| && forall j :: 0 <= j < i ==> fields[j].0 != fields[i].0
    ensures Lookup(fields, fields[i].0) == Some(fields[i].1)
  {
    if i > 0 {
      LookupFirst(fields[1..], i - 1);
    }
  }

  /** `Value::get` with a string index. */
  function Get(v: Json, key: string): Option<Json> {
    match v
    case Obj(fields) => Lookup(fields, key)
    case _ => None
  }

  /** The value is an object whose first field of this key holds this. */
  ghost predicate Binds(v: Json, key: string, x: Json) {
    v.Obj? && exists i :: 0 <= i < |v.fields| && v.fields[i] == (key, x) && forall j :: 0 <= j < i ==> v.fields[j].0 != key
  }

  /** The value is no object, or one without this key. */
  ghost predicate Absent(v: Json, key: string) {
    v.Obj? ==> forall i :: 0 <= i < |v.fields| ==> v.fields[i].0 != key
  }

  /** The first field binds its own key, and leaves other keys to the rest. */
  lemma BindsFirst(fields: seq<(string, Json)>, key: string, x: Json)
    requires fields != []
    ensures fields[0].0 == key ==> (Binds(Obj(fields), key, x) <==> fields[0].1 == x)
  {
    assert fields[0] == (key, x) <==> fields[0].0 == key && fields[0].1 == x;
  }

  lemma BindsRest(fields: seq<(string, Json)>, key: string, x: Json)
    requires fields != [] && fields[0].0 != key
    ensures Binds(Obj(fields), key, x) <==> Binds(Obj(fields[1..]), key, x)
  {
    var rest := fields[1..];
    if Binds(Obj(rest), key, x) {
      var i :| 0 <= i < |rest| && rest[i] == (key, x) && forall j :: 0 <= j < i ==> rest[j].0 != key;
      assert fields[i + 1] == (key, x) && forall j :: 0 <= j < i + 1 ==> fields[j].0 != key;
    }
    if Binds(Obj(fields), key, x) {
      var i :| 0 <= i < |fields| && fields[i] == (key, x) && forall j :: 0 <= j < i ==> fields[j].0 != key;
      assert rest[i - 1] == (key, x) && forall j :: 0 <= j < i - 1 ==> rest[j] == fields[j + 1];
    }
  }

  lemma AbsentRest(fields: seq<(string, Json)>, key: string)
    requires fields != []
    ensures Absent(Obj(fields), key) <==> fields[0].0 != key && Absent(Obj(fields[1..]), key)
  {
    var rest := fields[1..];
    if fields[0].0 != key && Absent(Obj(rest), key) {
      forall i | 0 <= i < |fields|
        ensures fields[i].0 != key
      {
        assert i > 0 ==> fields[i] == rest[i - 1];
      }
    }
    assert forall i :: 0 <= i < |rest| ==> rest[i] == fields[i + 1];
  }

  lemma {:induction false} LookupIff(fields: seq<(string, Json)>, key: string, x: Json)
    ensures Lookup(fields, key) == Some(x) <==> Binds(Obj(fields), key, x)
    ensures Lookup(fields, key) == None <==> Absent(Obj(fields), key)
  {
    if fields != [] {
      AbsentRest(fields, key);
      if fields[0].0 == key {
        BindsFirst(fields, key, x);
      } else {
        LookupIff(fields[1..], key, x);
        BindsRest(fields, key, x);
      }
    }
  }

  /** `Value::get` finds exactly what is bound. */
  lemma GetIff(v: Json, key: string, x: Json)
    ensures Get(v, key) == Some(x) <==> Binds(v, key, x)
    ensures Get(v, key) == None <==> Absent(v, key)
  {
    if v.Obj? {
      LookupIff(v.fields, key, x);
    }
  }

  /** `Value::as_str`. */
  function AsStr(v: Option<Json>): Option<string> {
    match v
    case Some(Str(s)) => Some(s)
    case _ => None
  }

  /** A string list as a JSON array. */
  function FromStrings(ss: seq<string>): Json {
    Arr(seq(|ss|, i requires 0 <= i < |ss| => Str(ss[i])))
  }

  /** Reads a JSON array of strings; anything else is refused. */
  function ToStrings(v: Json): Option<seq<string>> {
    if v.Arr? && (forall i :: 0 <= i < |v.items| ==> v.items[i].Str?) then
      Some(seq(|v.items|, i requires 0 <= i < |v.items| => v.items[i].s))
    else None
  }

  /** Writing a string list and reading it back loses nothing. */
  lemma StringsRoundTrip(ss: seq<string>)
    ensures ToStrings(FromStrings(ss)) == Some(ss)
  {
    var back := ToStrings(FromStrings(ss));
    assert back.Some? && back.value == ss;
  }
}
