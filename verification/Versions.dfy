/** Version comparison for the doctor's minimum versions. */
module Versions {
  import opened Wrappers

  const U32_MAX := 0xFFFF_FFFF

  // Parsing.

  predicate IsDigit(c: char) {
    '0' <= c <= '9'
  }

  predicate IsSeparator(c: char) {
    c == '.' || c == '-'
  }

  /** The pieces between separators. */
  function Pieces(s: string): (ps: seq<string>)
    ensures |ps| > 0
  {
    if s == "" then [""]
    else
      var rest := Pieces(s[1..]);
      if IsSeparator(s[0]) then [""] + rest else [[s[0]] + rest[0]] + rest[1..]
  }

  function LeadingDigits(p: string): (ds: string)
    ensures forall i :: 0 <= i < |ds| ==> IsDigit(ds[i])
  {
    if p == "" || !IsDigit(p[0]) then "" else [p[0]] + LeadingDigits(p[1..])
  }

  function Value(ds: string): nat
    requires forall i :: 0 <= i < |ds| ==> IsDigit(ds[i])
  {
    if ds == "" then 0
    else
      assert IsDigit(ds[|ds| - 1]);
      10 * Value(ds[..|ds| - 1]) + (ds[|ds| - 1] as int - '0' as int)
  }

  /** A piece's number: nothing without a leading digit, nothing beyond 32 bits. */
  function Component(p: string): Option<nat> {
    var ds := LeadingDigits(p);
    if ds == "" || Value(ds) > U32_MAX then None else Some(Value(ds))
  }

  function Components(ps: seq<string>): seq<nat> {
    if ps == [] then []
    else
      match Component(ps[0])
      case Some(v) => [v] + Components(ps[1..])
      case None => Components(ps[1..])
  }

  function Parse(s: string): seq<nat> {
    Components(Pieces(s))
  }

  // The order.

  /** A version's component, zero beyond its end. */
  function At(v: seq<nat>, i: nat): nat {
    if i < |v| then v[i] else 0
  }

  /** The versions agree before position `k`. */
  ghost predicate AgreeBefore(a: seq<nat>, b: seq<nat>, k: nat) {
    forall i: nat :: i < k ==> At(a, i) == At(b, i)
  }

  ghost predicate Equivalent(a: seq<nat>, b: seq<nat>) {
    forall i: nat :: At(a, i) == At(b, i)
  }

  /** `a` is later at the first difference. */
  ghost predicate Later(a: seq<nat>, b: seq<nat>) {
    exists k: nat :: At(a, k) > At(b, k) && AgreeBefore(a, b, k)
  }

  method VersionGe(actual: string, minimum: string) returns (r: bool)
    ensures r <==> Equivalent(Parse(actual), Parse(minimum)) || Later(Parse(actual), Parse(minimum))
  {
    var a, m := Parse(actual), Parse(minimum);
    var len := if |a| < |m| then |m| else |a|;
    for i := 0 to len
      invariant AgreeBefore(a, m, i)
    {
      var av, mv := if i < |a| then a[i] else 0, if i < |m| then m[i] else 0;
      assert av == At(a, i) && mv == At(m, i);
      if av > mv {
        return true;
      }
      if av < mv {
        return false;
      }
    }
    assert forall i: nat :: i >= len ==> At(a, i) == At(m, i);
    return true;
  }

  /** The first difference of two versions, if any. */
  lemma {:induction false} FirstDifference(a: seq<nat>, b: seq<nat>, k: nat) returns (d: Option<nat>)
    ensures d.None? ==> AgreeBefore(a, b, k)
    ensures d.Some? ==> d.value < k && At(a, d.value) != At(b, d.value) && AgreeBefore(a, b, d.value)
  {
    if k == 0 {
      d := None;
    } else {
      d := FirstDifference(a, b, k - 1);
      if d.None? && At(a, k - 1) != At(b, k - 1) {
        d := Some(k - 1);
      }
    }
  }

  /** Exactly one of: equivalent, later, earlier. */
  lemma Trichotomy(a: seq<nat>, b: seq<nat>)
    ensures Equivalent(a, b) || Later(a, b) || Later(b, a)
    ensures !(Equivalent(a, b) && Later(a, b)) && !(Later(a, b) && Later(b, a))
  {
    var d := FirstDifference(a, b, |a| + |b|);
    if d.Some? {
      assert AgreeBefore(b, a, d.value);
    } else {
      forall i: nat
        ensures At(a, i) == At(b, i)
      {
      }
    }
  }

  lemma LaterIsTransitive(a: seq<nat>, b: seq<nat>, c: seq<nat>)
    requires (Equivalent(a, b) || Later(a, b)) && (Equivalent(b, c) || Later(b, c))
    ensures Equivalent(a, c) || Later(a, c)
    ensures Later(a, b) || Later(b, c) ==> Later(a, c)
  {
    if Later(a, b) {
      var k: nat :| At(a, k) > At(b, k) && AgreeBefore(a, b, k);
      if Later(b, c) {
        var j: nat :| At(b, j) > At(c, j) && AgreeBefore(b, c, j);
        var least := if k < j then k else j;
        assert At(a, least) > At(c, least) && AgreeBefore(a, c, least);
      } else {
        assert At(a, k) > At(c, k) && AgreeBefore(a, c, k);
      }
    } else if Later(b, c) {
      var j: nat :| At(b, j) > At(c, j) && AgreeBefore(b, c, j);
      assert At(a, j) > At(c, j) && AgreeBefore(a, c, j);
    }
  }

  /** A version is later whose component is greater after a common start, and zeros at the end change nothing. */
  lemma LaterIs(common: seq<nat>, x: nat, y: nat, a: seq<nat>, b: seq<nat>)
    ensures x > y ==> Later(common + [x] + a, common + [y] + b)
    ensures Equivalent(common, common + [0])
  {
    var v, w := common + [x] + a, common + [y] + b;
    if x > y {
      assert At(v, |common|) == x && At(w, |common|) == y;
      assert AgreeBefore(v, w, |common|);
    }
  }

  // Printed versions.

  function Show(n: nat): (s: string)
    ensures |s| > 0 && forall i :: 0 <= i < |s| ==> IsDigit(s[i])
  {
    if n < 10 then [('0' as int + n) as char] else Show(n / 10) + [('0' as int + n % 10) as char]
  }

  /** The components in decimal, separated by dots. */
  function Printed(ns: seq<nat>): string {
    if ns == [] then ""
    else if |ns| == 1 then Show(ns[0])
    else Show(ns[0]) + "." + Printed(ns[1..])
  }

  lemma {:induction false} ValueOfShow(n: nat)
    ensures Value(Show(n)) == n
  {
    if n >= 10 {
      ValueOfShow(n / 10);
      assert Show(n)[..|Show(n)| - 1] == Show(n / 10);
    }
  }

  lemma {:induction false} DigitsLead(ds: string)
    requires forall i :: 0 <= i < |ds| ==> IsDigit(ds[i])
    ensures LeadingDigits(ds) == ds
  {
    if ds != "" {
      DigitsLead(ds[1..]);
    }
  }

  /** A run of digits is one piece, and a separator after it starts the next. */
  lemma {:induction false} PiecesOfDigits(ds: string, rest: string)
    requires forall i :: 0 <= i < |ds| ==> IsDigit(ds[i])
    ensures Pieces(ds) == [ds] && Pieces(ds + "." + rest) == [ds] + Pieces(rest)
  {
    if ds == "" {
      assert ("" + "." + rest)[1..] == rest;
    } else {
      PiecesOfDigits(ds[1..], rest);
      assert IsDigit(ds[0]) && [ds[0]] + ds[1..] == ds;
      assert (ds + "." + rest)[1..] == ds[1..] + "." + rest;
    }
  }

  /** The components of at most 32 bits. */
  function Kept(ns: seq<nat>): seq<nat> {
    if ns == [] then [] else (if ns[0] <= U32_MAX then [ns[0]] else []) + Kept(ns[1..])
  }

  lemma {:induction false} ParseOfPrinted(ns: seq<nat>)
    ensures Parse(Printed(ns)) == Kept(ns)
  {
    if ns == [] {
      assert Components([""]) == [];
    } else {
      ValueOfShow(ns[0]);
      DigitsLead(Show(ns[0]));
      PiecesOfDigits(Show(ns[0]), Printed(ns[1..]));
      if |ns| > 1 {
        ParseOfPrinted(ns[1..]);
        assert Pieces(Printed(ns))[1..] == Pieces(Printed(ns[1..]));
      } else {
        assert Pieces(Printed(ns))[1..] == [] && ns[1..] == [];
        assert Kept(ns[1..]) == [] == Components([]);
      }
    }
  }

  /** A piece without a dot or a dash. */
  predicate IsPiece(p: string) {
    forall i :: 0 <= i < |p| ==> p[i] != '.' && p[i] != '-'
  }

  lemma {:induction false} PieceFirst(p: string, c: char, rest: string)
    requires IsPiece(p) && (c == '.' || c == '-')
    ensures Pieces(p) == [p] && Pieces(p + [c] + rest) == [p] + Pieces(rest)
  {
    if p == "" {
      assert ("" + [c] + rest)[1..] == rest;
    } else {
      PieceFirst(p[1..], c, rest);
      assert !IsSeparator(p[0]) && [p[0]] + p[1..] == p;
      assert (p + [c] + rest)[1..] == p[1..] + [c] + rest;
    }
  }

  /** A number followed by anything but a digit counts as that number, if it fits; a piece that starts otherwise is skipped. */
  lemma ComponentIs(n: nat, suffix: string, p: string)
    requires suffix == "" || !('0' <= suffix[0] <= '9')
    ensures Component(Show(n) + suffix) == if n <= 4294967295 then Some(n) else None
    ensures p == "" || !('0' <= p[0] <= '9') ==> Component(p) == None
  {
    ValueOfShow(n);
    LeadingOf(Show(n), suffix);
  }

  lemma {:induction false} LeadingOf(ds: string, suffix: string)
    requires (forall i :: 0 <= i < |ds| ==> IsDigit(ds[i])) && (suffix == "" || !IsDigit(suffix[0]))
    ensures LeadingDigits(ds + suffix) == ds
  {
    if ds == "" {
      assert ds + suffix == suffix;
    } else {
      LeadingOf(ds[1..], suffix);
      assert (ds + suffix)[1..] == ds[1..] + suffix;
    }
  }

  /** Leading zeros do not count. */
  lemma {:induction false} ZeroFirst(ds: string)
    requires forall i :: 0 <= i < |ds| ==> IsDigit(ds[i])
    ensures Value("0" + ds) == Value(ds)
  {
    if ds != "" {
      ZeroFirst(ds[..|ds| - 1]);
      assert ("0" + ds)[..|ds|] == "0" + ds[..|ds| - 1];
    }
  }

  /** The first piece of a version, up to a dot or a dash, contributes its number if it has one; the rest follow. */
  lemma ParseFirst(p: string, c: char, rest: string)
    requires IsPiece(p) && (c == '.' || c == '-')
    ensures Parse(p) == if Component(p).Some? then [Component(p).value] else []
    ensures Parse(p + [c] + rest) == Parse(p) + Parse(rest)
  {
    PieceFirst(p, c, rest);
    var empty: seq<string> := [];
    assert [p][1..] == empty && ([p] + Pieces(rest))[1..] == Pieces(rest);
    assert Components(empty) == [];
  }

  /** Parsing inverts printing exactly on the versions whose components all fit in 32 bits. */
  lemma {:induction false} PrintedRoundTripIff(ns: seq<nat>)
    ensures Parse(Printed(ns)) == ns <==> forall i :: 0 <= i < |ns| ==> ns[i] <= U32_MAX
  {
    ParseOfPrinted(ns);
    KeptIsAll(ns);
  }

  lemma {:induction false} KeptIsAll(ns: seq<nat>)
    ensures |Kept(ns)| <= |ns|
    ensures Kept(ns) == ns <==> forall i :: 0 <= i < |ns| ==> ns[i] <= U32_MAX
  {
    if ns != [] {
      KeptIsAll(ns[1..]);
      if ns[0] <= U32_MAX && Kept(ns) == ns {
        assert Kept(ns[1..]) == Kept(ns)[1..];
      }
    }
  }
}
