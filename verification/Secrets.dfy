/**
 Sealing of secrets inside JSON configuration. The cipher, the key derivation and UTF-8 are
 parameters; Base64, the prefixes, the nonce split and the walk over the value are concrete.
 */
module Secrets {
  import opened Wrappers
  import opened Json
  import opened Base64

  type Bytes = seq<Byte>

  const PLAIN_PREFIX := "plain:"
  const ENC_PREFIX := "enc:"
  const DEV_SECRET := "dev-insecure-key"
  const NONCE_SIZE: nat := 12

  type Nonce = n: Bytes | |n| == NONCE_SIZE witness [0, 0, 0, 0, 0, 0, 0, 0, 0, 0, 0, 0]

  datatype Crypto = Crypto(
    derive: string -> Bytes,
    encrypt: (Bytes, Bytes, Bytes) -> Bytes,
    decrypt: (Bytes, Bytes, Bytes) -> Option<Bytes>,
    toUtf8: string -> Bytes,
    fromUtf8: Bytes -> Option<string>)

  /** Decryption under the same key and nonce undoes encryption, and UTF-8 decoding undoes encoding. */
  ghost predicate Sound(c: Crypto) {
    && (forall k, n, p :: c.decrypt(k, n, c.encrypt(k, n, p)) == Some(p))
    && (forall s :: c.fromUtf8(c.toUtf8(s)) == Some(s))
  }

  /** Neither encryption nor UTF-8 shortens anything. */
  ghost predicate Widening(c: Crypto) {
    && (forall k, n, p :: |c.encrypt(k, n, p)| >= |p|)
    && (forall s :: |c.toUtf8(s)| >= |s|)
  }

  /** The environment variable, if set. */
  type Env = Option<string>

  /** `derive_key`: an unset variable stands for the development secret. */
  function Key(c: Crypto, env: Env): Bytes {
    c.derive(env.GetOr(DEV_SECRET))
  }

  /** `seal_secret`; the nonce is the one drawn. */
  function SealSecret(c: Crypto, env: Env, nonce: Nonce, plain: string): string {
    if env.None? then PLAIN_PREFIX + plain
    else ENC_PREFIX + Encode(nonce + c.encrypt(Key(c, env), nonce, c.toUtf8(plain)))
  }

  function StripPrefix(s: string, prefix: string): Option<string> {
    if prefix <= s then Some(s[|prefix|..]) else None
  }

  /** `open_secret`. */
  function OpenSecret(c: Crypto, env: Env, stored: string): Option<string> {
    var plain := StripPrefix(stored, PLAIN_PREFIX);
    if plain.Some? then plain
    else
      match StripPrefix(stored, ENC_PREFIX)
      case None => None
      case Some(encoded) =>
        match Decode(encoded)
        case None => None
        case Some(payload) =>
          if |payload| < NONCE_SIZE then None
          else
            match c.decrypt(Key(c, env), payload[..NONCE_SIZE], payload[NONCE_SIZE..])
            case None => None
            case Some(bytes) => c.fromUtf8(bytes)
  }

  /** `open_secret(..).unwrap_or(stored)`. */
  function OpenOrKeep(c: Crypto, env: Env, stored: string): string {
    OpenSecret(c, env, stored).GetOr(stored)
  }

  /** Text sealed under a key opens to what that key's opener finds in the payload. */
  lemma OpenOfSeal(c: Crypto, env: string, nonce: Nonce, plain: string, opener: Env)
    ensures OpenSecret(c, opener, SealSecret(c, Some(env), nonce, plain)) ==
            match c.decrypt(Key(c, opener), nonce, c.encrypt(Key(c, Some(env)), nonce, c.toUtf8(plain)))
            case None => None
            case Some(bytes) => c.fromUtf8(bytes)
  {
    var cipher := c.encrypt(Key(c, Some(env)), nonce, c.toUtf8(plain));
    var payload := nonce + cipher;
    var sealed := SealSecret(c, Some(env), nonce, plain);
    assert sealed[0] == 'e';
    assert StripPrefix(sealed, ENC_PREFIX) == Some(Encode(payload));
    DecodeOfEncode(payload);
    assert payload[..NONCE_SIZE] == nonce && payload[NONCE_SIZE..] == cipher;
  }

  /** The opener's key is the sealer's, or the sealer had none. */
  predicate CanOpen(c: Crypto, sealer: Env, opener: Env) {
    sealer.None? || Key(c, sealer) == Key(c, opener)
  }

  /** One secret opens to itself, whatever prefix it already has. */
  lemma SecretRoundTrip(c: Crypto, sealer: Env, opener: Env, nonce: Nonce, plain: string)
    requires Sound(c) && CanOpen(c, sealer, opener)
    ensures OpenOrKeep(c, opener, SealSecret(c, sealer, nonce, plain)) == plain
  {
    match sealer
    case None =>
      assert StripPrefix(PLAIN_PREFIX + plain, PLAIN_PREFIX) == Some(plain);
    case Some(env) =>
      OpenOfSeal(c, env, nonce, plain, opener);
  }

  /** The opener's key refuses what the sealer makes of this text under this nonce. */
  predicate Refused(c: Crypto, sealer: Env, opener: Env, nonce: Nonce, plain: string) {
    && sealer.Some?
    && match c.decrypt(Key(c, opener), nonce, c.encrypt(Key(c, sealer), nonce, c.toUtf8(plain)))
       case None => true
       case Some(bytes) => c.fromUtf8(bytes).None?
  }

  /** A secret whose payload the opener's key refuses stays sealed, and a sealed text is never the plain one. */
  lemma SecretStaysSealed(c: Crypto, sealer: Env, opener: Env, nonce: Nonce, plain: string)
    requires Widening(c) && Refused(c, sealer, opener, nonce, plain)
    ensures var sealed := SealSecret(c, sealer, nonce, plain);
            OpenOrKeep(c, opener, sealed) == sealed && sealed != plain
  {
    OpenOfSeal(c, sealer.value, nonce, plain, opener);
    EncodeGrows(nonce + c.encrypt(Key(c, sealer), nonce, c.toUtf8(plain)));
    assert |SealSecret(c, sealer, nonce, plain)| > |plain|;
  }

  // Sensitive keys.

  function LowerChar(ch: char): char {
    if 'A' <= ch <= 'Z' then ch - 'A' + 'a' else ch
  }

  /** `to_ascii_lowercase`. */
  function Lower(s: string): string {
    seq(|s|, i requires 0 <= i < |s| => LowerChar(s[i]))
  }

  predicate ContainsText(s: string, part: string) {
    part <= s || (s != "" && ContainsText(s[1..], part))
  }

  predicate EndsWith(s: string, part: string) {
    |part| <= |s| && s[|s| - |part|..] == part
  }

  /** `is_sensitive_key`. */
  predicate IsSensitive(key: string) {
    var k := Lower(key);
    || ContainsText(k, "api_key") || ContainsText(k, "apikey") || EndsWith(k, "_key")
    || ContainsText(k, "secret") || ContainsText(k, "token") || ContainsText(k, "password")
    || k == "authorization"
  }

  /** The first character is the second or its ASCII capital. */
  predicate SameUpToCase(x: char, y: char) {
    x == y || ('A' <= x <= 'Z' && y as int == x as int + 32)
  }

  /** The text is this lower-case word up to ASCII case. */
  predicate Matches(text: string, word: string) {
    |text| == |word| && forall i :: 0 <= i < |word| ==> SameUpToCase(text[i], word[i])
  }

  /** The word stands in the key at position i, up to case. */
  predicate HasAt(key: string, i: nat, word: string) {
    i + |word| <= |key| && Matches(key[i..i + |word|], word)
  }

  ghost predicate Has(key: string, word: string) {
    exists i: nat :: HasAt(key, i, word)
  }

  /** The keys whose values are secrets. */
  ghost predicate IsSecretKey(key: string) {
    || Has(key, "api_key") || Has(key, "apikey") || Has(key, "secret") || Has(key, "token") || Has(key, "password")
    || (|key| >= 4 && HasAt(key, |key| - 4, "_key"))
    || Matches(key, "authorization")
  }

  predicate NoCapitals(word: string) {
    forall i :: 0 <= i < |word| ==> !('A' <= word[i] <= 'Z')
  }

  lemma LowerIff(text: string, word: string)
    requires NoCapitals(word)
    ensures Lower(text) == word <==> Matches(text, word)
  {
    if Lower(text) == word {
      forall i | 0 <= i < |word|
        ensures SameUpToCase(text[i], word[i])
      {
        assert LowerChar(text[i]) == word[i];
      }
    }
  }

  lemma LowerAt(key: string, i: nat, word: string)
    requires NoCapitals(word) && i + |word| <= |key|
    ensures Lower(key)[i..i + |word|] == word <==> HasAt(key, i, word)
  {
    LowerIff(key[i..i + |word|], word);
    assert Lower(key)[i..i + |word|] == Lower(key[i..i + |word|]);
  }

  /** The part stands in the text at position i. */
  predicate StandsAt(s: string, i: nat, part: string) {
    i + |part| <= |s| && s[i..i + |part|] == part
  }

  lemma StandsLater(s: string, i: nat, part: string)
    requires s != ""
    ensures StandsAt(s[1..], i, part) <==> StandsAt(s, i + 1, part)
  {
    if i + 1 + |part| <= |s| {
      assert s[1..][i..i + |part|] == s[i + 1..i + 1 + |part|];
    }
  }

  lemma {:induction false} ContainsIff(s: string, part: string)
    ensures ContainsText(s, part) <==> exists i: nat :: StandsAt(s, i, part)
  {
    assert part <= s <==> StandsAt(s, 0, part);
    if s != "" && !(part <= s) {
      ContainsIff(s[1..], part);
      if ContainsText(s[1..], part) {
        var i: nat :| StandsAt(s[1..], i, part);
        StandsLater(s, i, part);
      }
      if i: nat :| StandsAt(s, i, part) {
        StandsLater(s, i - 1, part);
      }
    }
  }

  lemma HasIff(key: string, word: string)
    requires NoCapitals(word)
    ensures ContainsText(Lower(key), word) <==> Has(key, word)
  {
    ContainsIff(Lower(key), word);
    forall i: nat
      ensures StandsAt(Lower(key), i, word) <==> HasAt(key, i, word)
    {
      if i + |word| <= |key| {
        LowerAt(key, i, word);
      }
    }
  }

  /**
   A key is sensitive if and only if one of five words stands in it, or `_key` ends it, or it is
   `authorization`, all up to ASCII case.
   */
  lemma SensitiveIff(key: string)
    ensures IsSensitive(key) <==> IsSecretKey(key)
  {
    HasAnyIff(key);
    AuthorizationIff(key);
    EndsIff(key);
  }

  lemma AuthorizationIff(key: string)
    ensures Lower(key) == "authorization" <==> Matches(key, "authorization")
  {
    LowerIff(key, "authorization");
  }

  lemma HasAnyIff(key: string)
    ensures ContainsText(Lower(key), "api_key") <==> Has(key, "api_key")
    ensures ContainsText(Lower(key), "apikey") <==> Has(key, "apikey")
    ensures ContainsText(Lower(key), "secret") <==> Has(key, "secret")
    ensures ContainsText(Lower(key), "token") <==> Has(key, "token")
    ensures ContainsText(Lower(key), "password") <==> Has(key, "password")
  {
    HasIff(key, "api_key");
    HasIff(key, "apikey");
    HasIff(key, "secret");
    HasIff(key, "token");
    HasIff(key, "password");
  }

  lemma EndsIff(key: string)
    ensures EndsWith(Lower(key), "_key") <==> |key| >= 4 && HasAt(key, |key| - 4, "_key")
  {
    if |key| >= 4 {
      LowerAt(key, |key| - 4, "_key");
      assert Lower(key)[|key| - 4..] == Lower(key)[|key| - 4..|key| - 4 + 4];
    }
  }

  // The walk over a value. Nonces come from a stream: the i-th string sealed gets the i-th nonce.

  type Nonces = nat -> Nonce

  /** How a walk seals its k-th string, and how one opens a string. */
  type SealAt = (nat, string) -> string
  type OpenBy = string -> string

  function Sealer(c: Crypto, env: Env, nonces: Nonces): SealAt {
    (k: nat, plain: string) => SealSecret(c, env, nonces(k), plain)
  }

  function Opener(c: Crypto, env: Env): OpenBy {
    stored => OpenOrKeep(c, env, stored)
  }

  /** Sealing a value whose first nonce is number `i`; also the number of the next unused nonce. */
  function Seal(f: SealAt, v: Json, i: nat): (Json, nat)
    decreases v, 1
  {
    match v
    case Obj(fields) => var (out, next) := SealFields(f, fields, i); (Obj(out), next)
    case Arr(items) => var (out, next) := SealItems(f, items, i); (Arr(out), next)
    case other => (other, i)
  }

  function SealItems(f: SealAt, items: seq<Json>, i: nat): (seq<Json>, nat)
    decreases items, 0
  {
    if items == [] then ([], i)
    else
      var (first, mid) := Seal(f, items[0], i);
      var (rest, next) := SealItems(f, items[1..], mid);
      ([first] + rest, next)
  }

  /** One field: a string under a sensitive key is sealed, anything else is walked. */
  function SealField(f: SealAt, field: (string, Json), i: nat): (Json, nat)
    decreases field, 2
  {
    if IsSensitive(field.0) && field.1.Str? then (Str(f(i, field.1.s)), i + 1)
    else Seal(f, field.1, i)
  }

  function SealFields(f: SealAt, fields: seq<(string, Json)>, i: nat)
    : (seq<(string, Json)>, nat)
    decreases fields, 0
  {
    if fields == [] then ([], i)
    else
      var (first, mid) := SealField(f, fields[0], i);
      var (rest, next) := SealFields(f, fields[1..], mid);
      ([(fields[0].0, first)] + rest, next)
  }

  function OpenJson(g: OpenBy, v: Json): Json
    decreases v, 1
  {
    match v
    case Obj(fields) => Obj(OpenFields(g, fields))
    case Arr(items) => Arr(OpenItems(g, items))
    case other => other
  }

  function OpenItems(g: OpenBy, items: seq<Json>): seq<Json>
    decreases items, 0
  {
    if items == [] then [] else [OpenJson(g, items[0])] + OpenItems(g, items[1..])
  }

  function OpenField(g: OpenBy, field: (string, Json)): Json
    decreases field, 2
  {
    if IsSensitive(field.0) && field.1.Str? then Str(g(field.1.s)) else OpenJson(g, field.1)
  }

  function OpenFields(g: OpenBy, fields: seq<(string, Json)>): seq<(string, Json)>
    decreases fields, 0
  {
    if fields == [] then []
    else [(fields[0].0, OpenField(g, fields[0]))] + OpenFields(g, fields[1..])
  }

  // What sealing leaves alone, and what it leaves behind.

  /** The value with every secret blanked out. */
  function Erase(v: Json): Json
    decreases v, 1
  {
    match v
    case Obj(fields) => Obj(EraseFields(fields))
    case Arr(items) => Arr(EraseItems(items))
    case other => other
  }

  function EraseItems(items: seq<Json>): seq<Json>
    decreases items, 0
  {
    if items == [] then [] else [Erase(items[0])] + EraseItems(items[1..])
  }

  function EraseField(field: (string, Json)): Json
    decreases field, 2
  {
    if IsSensitive(field.0) && field.1.Str? then Str("") else Erase(field.1)
  }

  function EraseFields(fields: seq<(string, Json)>): seq<(string, Json)>
    decreases fields, 0
  {
    if fields == [] then [] else [(fields[0].0, EraseField(fields[0]))] + EraseFields(fields[1..])
  }

  /** The secrets of a value in the order of the walk. */
  function SecretsOf(v: Json): seq<string>
    decreases v, 1
  {
    match v
    case Obj(fields) => SecretsOfFields(fields)
    case Arr(items) => SecretsOfItems(items)
    case _ => []
  }

  function SecretsOfItems(items: seq<Json>): seq<string>
    decreases items, 0
  {
    if items == [] then [] else SecretsOf(items[0]) + SecretsOfItems(items[1..])
  }

  function SecretsOfField(field: (string, Json)): seq<string>
    decreases field, 2
  {
    if IsSensitive(field.0) && field.1.Str? then [field.1.s] else SecretsOf(field.1)
  }

  function SecretsOfFields(fields: seq<(string, Json)>): seq<string>
    decreases fields, 0
  {
    if fields == [] then [] else SecretsOfField(fields[0]) + SecretsOfFields(fields[1..])
  }

  /** The j-th secret sealed with the j-th nonce from number i on. */
  function SealedList(f: SealAt, plain: seq<string>, i: nat): seq<string> {
    seq(|plain|, j requires 0 <= j < |plain| => f(i + j, plain[j]))
  }

  lemma SealedListSplit(f: SealAt, a: seq<string>, b: seq<string>, i: nat)
    ensures SealedList(f, a + b, i) ==
            SealedList(f, a, i) + SealedList(f, b, i + |a|)
  {
  }

  /**
   Sealing changes nothing but the secrets, and it seals each secret once, with a nonce of its own:
   the sealed value's secrets are the plain ones sealed in order with consecutive nonces.
   */
  lemma {:induction false} SealIsExact(f: SealAt, v: Json, i: nat)
    ensures var (out, next) := Seal(f, v, i);
            && Erase(out) == Erase(v)
            && SecretsOf(out) == SealedList(f, SecretsOf(v), i)
            && next == i + |SecretsOf(v)|
            && (out.Str? <==> v.Str?)
    decreases v, 1
  {
    match v
    case Obj(fields) => SealFieldsExact(f, fields, i);
    case Arr(items) => SealItemsExact(f, items, i);
    case _ =>
  }

  lemma {:induction false} SealItemsExact(f: SealAt, items: seq<Json>, i: nat)
    ensures var (out, next) := SealItems(f, items, i);
            && EraseItems(out) == EraseItems(items)
            && SecretsOfItems(out) == SealedList(f, SecretsOfItems(items), i)
            && next == i + |SecretsOfItems(items)|
    decreases items, 0
  {
    if items != [] {
      var (first, mid) := Seal(f, items[0], i);
      var (rest, next) := SealItems(f, items[1..], mid);
      SealIsExact(f, items[0], i);
      SealItemsExact(f, items[1..], mid);
      assert ([first] + rest)[1..] == rest;
      SealedListSplit(f, SecretsOf(items[0]), SecretsOfItems(items[1..]), i);
    }
  }

  lemma {:induction false} SealFieldExact(f: SealAt, field: (string, Json), i: nat)
    ensures var (out, next) := SealField(f, field, i);
            && EraseField((field.0, out)) == EraseField(field)
            && SecretsOfField((field.0, out)) == SealedList(f, SecretsOfField(field), i)
            && next == i + |SecretsOfField(field)|
    decreases field, 2
  {
    if !(IsSensitive(field.0) && field.1.Str?) {
      SealIsExact(f, field.1, i);
    }
  }

  lemma FieldsOf(head: (string, Json), rest: seq<(string, Json)>)
    ensures EraseFields([head] + rest) == [(head.0, EraseField(head))] + EraseFields(rest)
    ensures SecretsOfFields([head] + rest) == SecretsOfField(head) + SecretsOfFields(rest)
  {
    assert ([head] + rest)[0] == head && ([head] + rest)[1..] == rest;
  }

  lemma {:induction false} SealFieldsExact(f: SealAt, fields: seq<(string, Json)>, i: nat)
    ensures var (out, next) := SealFields(f, fields, i);
            && EraseFields(out) == EraseFields(fields)
            && SecretsOfFields(out) == SealedList(f, SecretsOfFields(fields), i)
            && next == i + |SecretsOfFields(fields)|
    decreases fields, 0
  {
    if fields != [] {
      var (first, mid) := SealField(f, fields[0], i);
      var (rest, next) := SealFields(f, fields[1..], mid);
      SealFieldExact(f, fields[0], i);
      SealFieldsExact(f, fields[1..], mid);
      assert SealFields(f, fields, i) == ([(fields[0].0, first)] + rest, next);
      FieldsOf((fields[0].0, first), rest);
      SealedListSplit(f, SecretsOfField(fields[0]), SecretsOfFields(fields[1..]), i);
    }
  }

  // What becomes of each string, at any depth.

  /**
   The second value is the first with every string under a secret key, at any depth, replaced by a
   text in this relation to it, and with nothing else changed.
   */
  ghost predicate SealedAs(ok: (string, string) -> bool, v: Json, out: Json) {
    match v
    case Obj(fields) =>
      && out.Obj? && |out.fields| == |fields|
      && forall i :: 0 <= i < |fields| ==>
           && out.fields[i].0 == fields[i].0
           && (if IsSecretKey(fields[i].0) && fields[i].1.Str?
               then out.fields[i].1.Str? && ok(fields[i].1.s, out.fields[i].1.s)
               else SealedAs(ok, fields[i].1, out.fields[i].1))
    case Arr(items) =>
      && out.Arr? && |out.items| == |items|
      && forall i :: 0 <= i < |items| ==> SealedAs(ok, items[i], out.items[i])
    case _ => out == v
  }

  /** One field so sealed. */
  ghost predicate FieldSealedAs(ok: (string, string) -> bool, field: (string, Json), out: (string, Json)) {
    && out.0 == field.0
    && (if IsSecretKey(field.0) && field.1.Str?
        then out.1.Str? && ok(field.1.s, out.1.s)
        else SealedAs(ok, field.1, out.1))
  }

  lemma {:induction false} WalkSeals(ok: (string, string) -> bool, f: SealAt, v: Json, i: nat)
    requires forall k: nat, s :: ok(s, f(k, s))
    ensures SealedAs(ok, v, Seal(f, v, i).0)
    decreases v, 1
  {
    match v
    case Obj(fields) =>
      WalkSealsFields(ok, f, fields, i);
      var out := SealFields(f, fields, i).0;
      forall j | 0 <= j < |fields|
        ensures FieldSealedAs(ok, fields[j], out[j])
      {
      }
    case Arr(items) => WalkSealsItems(ok, f, items, i);
    case _ =>
  }

  lemma {:induction false} WalkSealsItems(ok: (string, string) -> bool, f: SealAt, items: seq<Json>, i: nat)
    requires forall k: nat, s :: ok(s, f(k, s))
    ensures var out := SealItems(f, items, i).0;
            |out| == |items| && forall j :: 0 <= j < |items| ==> SealedAs(ok, items[j], out[j])
    decreases items, 0
  {
    if items != [] {
      var (first, mid) := Seal(f, items[0], i);
      var (rest, next) := SealItems(f, items[1..], mid);
      WalkSeals(ok, f, items[0], i);
      WalkSealsItems(ok, f, items[1..], mid);
      var out := SealItems(f, items, i).0;
      assert out == [first] + rest;
      forall j | 0 <= j < |items|
        ensures SealedAs(ok, items[j], out[j])
      {
        if j > 0 {
          assert items[j] == items[1..][j - 1] && out[j] == rest[j - 1];
        }
      }
    }
  }

  lemma {:induction false} WalkSealsField(ok: (string, string) -> bool, f: SealAt, field: (string, Json), i: nat)
    requires forall k: nat, s :: ok(s, f(k, s))
    ensures FieldSealedAs(ok, field, (field.0, SealField(f, field, i).0))
    decreases field, 2
  {
    SensitiveIff(field.0);
    if !(IsSensitive(field.0) && field.1.Str?) {
      WalkSeals(ok, f, field.1, i);
    }
  }

  lemma {:induction false} WalkSealsFields(
      ok: (string, string) -> bool, f: SealAt, fields: seq<(string, Json)>, i: nat)
    requires forall k: nat, s :: ok(s, f(k, s))
    ensures var out := SealFields(f, fields, i).0;
            |out| == |fields| && forall j :: 0 <= j < |fields| ==> FieldSealedAs(ok, fields[j], out[j])
    decreases fields, 0
  {
    if fields != [] {
      var (first, mid) := SealField(f, fields[0], i);
      var (rest, next) := SealFields(f, fields[1..], mid);
      WalkSealsField(ok, f, fields[0], i);
      WalkSealsFields(ok, f, fields[1..], mid);
      var out := SealFields(f, fields, i).0;
      assert out == [(fields[0].0, first)] + rest;
      forall j | 0 <= j < |fields|
        ensures FieldSealedAs(ok, fields[j], out[j])
      {
        if j > 0 {
          assert fields[j] == fields[1..][j - 1] && out[j] == rest[j - 1];
        }
      }
    }
  }

  /** The text is `enc:` and the Base64 form of some nonce of 12 bytes and the secret encrypted under it. */
  ghost predicate IsSealing(c: Crypto, secret: string, plain: string, sealed: string) {
    exists nonce: Bytes :: |nonce| == 12
      && sealed == "enc:" + Encode(nonce + c.encrypt(c.derive(secret), nonce, c.toUtf8(plain)))
  }

  /** With the key set, every string under a secret key, at any depth, is replaced by its sealing; nothing else changes. */
  lemma EverySecretIsSealed(c: Crypto, secret: string, nonces: Nonces, v: Json, i: nat)
    ensures SealedAs((plain, sealed) => IsSealing(c, secret, plain, sealed), v,
                     Seal(Sealer(c, Some(secret), nonces), v, i).0)
  {
    var f := Sealer(c, Some(secret), nonces);
    forall k: nat, s
      ensures IsSealing(c, secret, s, f(k, s))
    {
      SealingOf(c, secret, nonces(k), s);
    }
    WalkSeals((plain, sealed) => IsSealing(c, secret, plain, sealed), f, v, i);
  }

  lemma SealingOf(c: Crypto, secret: string, nonce: Nonce, plain: string)
    ensures IsSealing(c, secret, plain, SealSecret(c, Some(secret), nonce, plain))
  {
    var cipher := c.encrypt(c.derive(secret), nonce, c.toUtf8(plain));
    assert |nonce| == 12 && SealSecret(c, Some(secret), nonce, plain) == "enc:" + Encode(nonce + cipher);
  }

  /** Without the key, each of them is marked as plain. */
  lemma EverySecretIsMarked(c: Crypto, nonces: Nonces, v: Json, i: nat)
    ensures SealedAs((plain, sealed) => sealed == "plain:" + plain, v, Seal(Sealer(c, None, nonces), v, i).0)
  {
    var ok: (string, string) -> bool := (plain, sealed) => sealed == "plain:" + plain;
    var f := Sealer(c, None, nonces);
    forall k: nat, s: string
      ensures ok(s, f(k, s))
    {
      assert SealSecret(c, None, nonces(k), s) == "plain:" + s;
    }
    WalkSeals(ok, f, v, i);
  }

  // What opening makes of a stored text.

  /** A text without either prefix is not opened, a plain one is what follows its prefix. */
  lemma OpenWithoutCipher(c: Crypto, env: Env, stored: string)
    ensures !("plain:" <= stored) && !("enc:" <= stored) ==>
              OpenSecret(c, env, stored) == None && OpenOrKeep(c, env, stored) == stored
    ensures "plain:" <= stored ==> OpenSecret(c, env, stored) == Some(stored[6..])
  {
  }

  /** A sealed one is its payload decrypted under the first 12 bytes, if it is Base64 of at least 12 bytes. */
  lemma OpenWithCipher(c: Crypto, env: Env, encoded: string)
    ensures OpenSecret(c, env, "enc:" + encoded) ==
            var key := c.derive(if env.Some? then env.value else "dev-insecure-key");
            match Decode(encoded)
            case None => None
            case Some(payload) =>
              if |payload| < 12 then None
              else
                match c.decrypt(key, payload[..12], payload[12..])
                case None => None
                case Some(bytes) => c.fromUtf8(bytes)
  {
    var stored := "enc:" + encoded;
    assert stored[0] == 'e' && stored[4..] == encoded;
  }

  /** Opening leaves a value alone whose secrets it leaves alone. */
  lemma {:induction false} OpenLeaves(g: OpenBy, v: Json)
    requires forall s :: s in SecretsOf(v) ==> g(s) == s
    ensures OpenJson(g, v) == v
    decreases v, 1
  {
    match v
    case Obj(fields) => OpenLeavesFields(g, fields);
    case Arr(items) => OpenLeavesItems(g, items);
    case _ =>
  }

  lemma {:induction false} OpenLeavesItems(g: OpenBy, items: seq<Json>)
    requires forall s :: s in SecretsOfItems(items) ==> g(s) == s
    ensures OpenItems(g, items) == items
    decreases items, 0
  {
    if items != [] {
      OpenLeaves(g, items[0]);
      OpenLeavesItems(g, items[1..]);
      assert items == [items[0]] + items[1..];
    }
  }

  lemma {:induction false} OpenLeavesField(g: OpenBy, field: (string, Json))
    requires forall s :: s in SecretsOfField(field) ==> g(s) == s
    ensures OpenField(g, field) == field.1
    decreases field, 2
  {
    if IsSensitive(field.0) && field.1.Str? {
      assert field.1.s in SecretsOfField(field);
    } else {
      OpenLeaves(g, field.1);
    }
  }

  lemma {:induction false} OpenLeavesFields(g: OpenBy, fields: seq<(string, Json)>)
    requires forall s :: s in SecretsOfFields(fields) ==> g(s) == s
    ensures OpenFields(g, fields) == fields
    decreases fields, 0
  {
    if fields != [] {
      OpenLeavesField(g, fields[0]);
      OpenLeavesFields(g, fields[1..]);
      assert fields == [fields[0]] + fields[1..];
    }
  }

  /** A value stored before sealing, none of whose secrets has a prefix, opens to itself under every setting. */
  lemma UnsealedValueStays(c: Crypto, env: Env, v: Json)
    requires forall s :: s in SecretsOf(v) ==> !("plain:" <= s) && !("enc:" <= s)
    ensures OpenJson(Opener(c, env), v) == v
  {
    forall s | s in SecretsOf(v)
      ensures Opener(c, env)(s) == s
    {
      OpenWithoutCipher(c, env, s);
    }
    OpenLeaves(Opener(c, env), v);
  }

  // Opening undoes sealing, exactly when every single secret opens to itself.

  /** The text, sealed as the k-th, opens to itself. */
  predicate Back(f: SealAt, g: OpenBy, k: nat, plain: string) {
    g(f(k, plain)) == plain
  }

  /** So does each of these texts, sealed from number i on. */
  predicate AllBack(f: SealAt, g: OpenBy, plain: seq<string>, i: nat) {
    forall j :: 0 <= j < |plain| ==> Back(f, g, i + j, plain[j])
  }

  lemma AllBackSplit(f: SealAt, g: OpenBy, a: seq<string>, b: seq<string>, i: nat)
    ensures AllBack(f, g, a + b, i) <==> AllBack(f, g, a, i) && AllBack(f, g, b, i + |a|)
  {
    if AllBack(f, g, a + b, i) {
      forall j | 0 <= j < |a|
        ensures Back(f, g, i + j, a[j])
      {
        assert (a + b)[j] == a[j];
      }
      forall j | 0 <= j < |b|
        ensures Back(f, g, i + |a| + j, b[j])
      {
        assert (a + b)[|a| + j] == b[j] && i + (|a| + j) == i + |a| + j;
      }
    }
  }

  /** For every way of sealing and opening strings, a value's round trip is the round trip of its secrets. */
  lemma {:induction false} RoundTripOfSecrets(f: SealAt, g: OpenBy, v: Json, i: nat)
    ensures OpenJson(g, Seal(f, v, i).0) == v <==> AllBack(f, g, SecretsOf(v), i)
    decreases v, 1
  {
    match v
    case Obj(fields) => RoundTripOfFields(f, g, fields, i);
    case Arr(items) => RoundTripOfItems(f, g, items, i);
    case _ =>
  }

  /** A list is another one exactly when heads and tails agree. */
  lemma SameParts<T>(head: T, tail: seq<T>, whole: seq<T>)
    requires whole != []
    ensures [head] + tail == whole <==> head == whole[0] && tail == whole[1..]
  {
    assert ([head] + tail)[0] == head && ([head] + tail)[1..] == tail;
    assert whole == [whole[0]] + whole[1..];
  }

  lemma {:induction false} RoundTripOfItems(f: SealAt, g: OpenBy, items: seq<Json>, i: nat)
    ensures OpenItems(g, SealItems(f, items, i).0) == items <==> AllBack(f, g, SecretsOfItems(items), i)
    decreases items, 0
  {
    if items != [] {
      var (first, mid) := Seal(f, items[0], i);
      var (rest, next) := SealItems(f, items[1..], mid);
      SealIsExact(f, items[0], i);
      RoundTripOfSecrets(f, g, items[0], i);
      RoundTripOfItems(f, g, items[1..], mid);
      AllBackSplit(f, g, SecretsOf(items[0]), SecretsOfItems(items[1..]), i);
      assert ([first] + rest)[1..] == rest;
      SameParts(OpenJson(g, first), OpenItems(g, rest), items);
    }
  }

  lemma {:induction false} RoundTripOfField(f: SealAt, g: OpenBy, field: (string, Json), i: nat)
    ensures OpenField(g, (field.0, SealField(f, field, i).0)) == field.1 <==> AllBack(f, g, SecretsOfField(field), i)
    decreases field, 2
  {
    if IsSensitive(field.0) && field.1.Str? {
      assert Back(f, g, i + 0, [field.1.s][0]) <==> g(f(i, field.1.s)) == field.1.s;
    } else {
      SealIsExact(f, field.1, i);
      RoundTripOfSecrets(f, g, field.1, i);
    }
  }

  /** Fields open back exactly when the first one and the rest do. */
  lemma FieldsBackIff(g: OpenBy, head: (string, Json), rest: seq<(string, Json)>, fields: seq<(string, Json)>)
    requires fields != [] && head.0 == fields[0].0
    ensures OpenFields(g, [head] + rest) == fields <==>
            OpenField(g, head) == fields[0].1 && OpenFields(g, rest) == fields[1..]
  {
    assert ([head] + rest)[0] == head && ([head] + rest)[1..] == rest;
    var plainHead := (head.0, OpenField(g, head));
    SameParts(plainHead, OpenFields(g, rest), fields);
    assert plainHead == fields[0] <==> plainHead.1 == fields[0].1;
  }

  lemma {:induction false} RoundTripOfFields(f: SealAt, g: OpenBy, fields: seq<(string, Json)>, i: nat)
    ensures OpenFields(g, SealFields(f, fields, i).0) == fields <==> AllBack(f, g, SecretsOfFields(fields), i)
    decreases fields, 0
  {
    if fields != [] {
      var (first, mid) := SealField(f, fields[0], i);
      var (rest, next) := SealFields(f, fields[1..], mid);
      SealFieldExact(f, fields[0], i);
      RoundTripOfField(f, g, fields[0], i);
      RoundTripOfFields(f, g, fields[1..], mid);
      AllBackSplit(f, g, SecretsOfField(fields[0]), SecretsOfFields(fields[1..]), i);
      FieldsBackIff(g, (fields[0].0, first), rest, fields);
    }
  }

  /** The opener's key refuses at least one of these secrets. */
  predicate SomeRefused(c: Crypto, sealer: Env, opener: Env, nonces: Nonces, plain: seq<string>, i: nat) {
    exists j :: 0 <= j < |plain| && Refused(c, sealer, opener, nonces(i + j), plain[j])
  }

  /**
   For every JSON value, every choice of nonces and every pair of settings: opening what was sealed
   gives the value back if and only if the sealer had no key, or the opener derives the same key, or
   the value has no secret. For "only if" the other key must refuse one of the value's own payloads.
   */
  lemma RoundTripIff(c: Crypto, sealer: Env, opener: Env, nonces: Nonces, v: Json, i: nat)
    requires Sound(c)
    requires CanOpen(c, sealer, opener) || SecretsOf(v) == []
             || (Widening(c) && SomeRefused(c, sealer, opener, nonces, SecretsOf(v), i))
    ensures OpenJson(Opener(c, opener), Seal(Sealer(c, sealer, nonces), v, i).0) == v <==>
            CanOpen(c, sealer, opener) || SecretsOf(v) == []
  {
    var f, g, plain := Sealer(c, sealer, nonces), Opener(c, opener), SecretsOf(v);
    RoundTripOfSecrets(f, g, v, i);
    if CanOpen(c, sealer, opener) {
      forall j | 0 <= j < |plain|
        ensures Back(f, g, i + j, plain[j])
      {
        SecretRoundTrip(c, sealer, opener, nonces(i + j), plain[j]);
      }
    } else if plain != [] {
      var j :| 0 <= j < |plain| && Refused(c, sealer, opener, nonces(i + j), plain[j]);
      SecretStaysSealed(c, sealer, opener, nonces(i + j), plain[j]);
      assert !Back(f, g, i + j, plain[j]);
    }
  }

  // The hypotheses on the cipher can hold together.

  /** Three bytes of a number, and the number of three bytes. */
  function High(x: nat): Byte
    requires x < 0x100_0000
  {
    x / 0x1_0000
  }

  function Middle(x: nat): Byte
    requires x < 0x100_0000
  {
    x % 0x1_0000 / 0x100
  }

  function Low(x: nat): Byte
    requires x < 0x100_0000
  {
    x % 0x1_0000 % 0x100
  }

  function Number(high: Byte, middle: Byte, low: Byte): nat {
    high * 0x1_0000 + (middle * 0x100 + low)
  }

  lemma NumberOfBytes(x: nat)
    requires x < 0x100_0000
    ensures Number(High(x), Middle(x), Low(x)) == x
  {
    var rest := x % 0x1_0000;
    assert x == x / 0x1_0000 * 0x1_0000 + rest;
    assert rest == rest / 0x100 * 0x100 + rest % 0x100;
  }

  /** Each character as three bytes. */
  function Spread(s: string): (b: Bytes)
    ensures |b| == 3 * |s|
  {
    if s == "" then [] else [High(s[0] as int), Middle(s[0] as int), Low(s[0] as int)] + Spread(s[1..])
  }

  function Gather(b: Bytes): Option<string> {
    if b == [] then Some("")
    else if |b| < 3 then None
    else
      var x := Number(b[0], b[1], b[2]);
      if 0xD800 <= x < 0xE000 || x >= 0x11_0000 then None
      else
        match Gather(b[3..])
        case None => None
        case Some(rest) => Some([x as char] + rest)
  }

  /** Gathering three bytes of a character and what follows them. */
  lemma GatherAfter(ch: char, b: Bytes, rest: string)
    requires Gather(b) == Some(rest)
    ensures Gather([High(ch as int), Middle(ch as int), Low(ch as int)] + b) == Some([ch] + rest)
  {
    NumberOfBytes(ch as int);
    assert ([High(ch as int), Middle(ch as int), Low(ch as int)] + b)[3..] == b;
  }

  lemma {:induction false} GatherOfSpread(s: string)
    ensures Gather(Spread(s)) == Some(s)
  {
    if s != "" {
      GatherOfSpread(s[1..]);
      GatherAfter(s[0], Spread(s[1..]), s[1..]);
      assert [s[0]] + s[1..] == s;
    }
  }

  /**
   Some cipher is sound and widening and refuses every text sealed under the first of two different
   settings when it is opened under the second.
   */
  lemma HypothesesMeet(sealer: string, opener: string) returns (c: Crypto)
    requires sealer != opener
    ensures Sound(c) && Widening(c) && !CanOpen(c, Some(sealer), Some(opener))
    ensures forall nonce, plain :: Refused(c, Some(sealer), Some(opener), nonce, plain)
  {
    c := Crypto(
      secret => if secret == sealer then [1] else [0],
      (k, n, p) => k + p,
      (k, n, sealed) => if k <= sealed then Some(sealed[|k|..]) else None,
      Spread, Gather);
    forall k, n, p
      ensures c.decrypt(k, n, c.encrypt(k, n, p)) == Some(p)
    {
      assert (k + p)[|k|..] == p && k <= k + p;
    }
    forall s
      ensures c.fromUtf8(c.toUtf8(s)) == Some(s)
    {
      GatherOfSpread(s);
    }
  }

  // The loops of the source.

  /** `Map::insert`: replaces the value of a key, or adds the key at the end. */
  function Insert(fields: seq<(string, Json)>, key: string, v: Json): seq<(string, Json)> {
    if fields == [] then [(key, v)]
    else if fields[0].0 == key then [(key, v)] + fields[1..]
    else [fields[0]] + Insert(fields[1..], key, v)
  }

  lemma {:induction false} InsertNew(fields: seq<(string, Json)>, key: string, v: Json)
    requires forall j :: 0 <= j < |fields| ==> fields[j].0 != key
    ensures Insert(fields, key, v) == fields + [(key, v)]
  {
    if fields != [] {
      InsertNew(fields[1..], key, v);
    }
  }

  /** Moving one element from the work to be done to the work done. */
  lemma MoveOne<T>(goal: seq<T>, out: seq<T>, x: T, rest: seq<T>)
    requires goal == out + ([x] + rest)
    ensures goal == (out + [x]) + rest
  {
  }

  /** A key that comes later differs from those already inserted. */
  lemma NewKey(fields: seq<(string, Json)>, out: seq<(string, Json)>, k: nat)
    requires DistinctKeys(fields) && k < |fields| && |out| == k
    requires forall j :: 0 <= j < k ==> out[j].0 == fields[j].0
    ensures forall j :: 0 <= j < k ==> out[j].0 != fields[k].0
  {
  }

  /** One turn of the loop over fields. */
  lemma SealFieldsAt(f: SealAt, fields: seq<(string, Json)>, k: nat, i: nat)
    requires k < |fields|
    ensures var (first, mid) := SealField(f, fields[k], i);
            && SealFields(f, fields[k..], i).0 ==
               [(fields[k].0, first)] + SealFields(f, fields[k + 1..], mid).0
            && SealFields(f, fields[k..], i).1 == SealFields(f, fields[k + 1..], mid).1
  {
    assert fields[k..][0] == fields[k] && fields[k..][1..] == fields[k + 1..];
  }

  /** One turn of the loop over array items. */
  lemma SealItemsAt(f: SealAt, items: seq<Json>, k: nat, i: nat)
    requires k < |items|
    ensures var (first, mid) := Seal(f, items[k], i);
            && SealItems(f, items[k..], i).0 ==
               [first] + SealItems(f, items[k + 1..], mid).0
            && SealItems(f, items[k..], i).1 == SealItems(f, items[k + 1..], mid).1
  {
    assert items[k..][0] == items[k] && items[k..][1..] == items[k + 1..];
  }

  /** `seal_sensitive_json`. */
  method SealSensitiveJson(c: Crypto, env: Env, nonces: Nonces, v: Json, i: nat) returns (sealed: Json, next: nat)
    requires WellFormed(v)
    ensures sealed == Seal(Sealer(c, env, nonces), v, i).0 && next == Seal(Sealer(c, env, nonces), v, i).1
    decreases v, 1
  {
    match v
    case Obj(fields) =>
      var out;
      out, next := SealObject(c, env, nonces, fields, i);
      sealed := Obj(out);
    case Arr(items) =>
      var out;
      out, next := SealArray(c, env, nonces, items, i);
      sealed := Arr(out);
    case other => sealed, next := other, i;
  }

  /** The object case: the output map is filled field by field. */
  method SealObject(c: Crypto, env: Env, nonces: Nonces, fields: seq<(string, Json)>, i: nat)
    returns (out: seq<(string, Json)>, next: nat)
    requires WellFormed(Obj(fields))
    ensures out == SealFields(Sealer(c, env, nonces), fields, i).0 && next == SealFields(Sealer(c, env, nonces), fields, i).1
    decreases fields, 0
  {
    out, next := [], i;
    assert fields[0..] == fields;
    for k := 0 to |fields|
      invariant |out| == k && forall j :: 0 <= j < k ==> out[j].0 == fields[j].0
      invariant SealFields(Sealer(c, env, nonces), fields, i).0 == out + SealFields(Sealer(c, env, nonces), fields[k..], next).0
      invariant SealFields(Sealer(c, env, nonces), fields, i).1 == SealFields(Sealer(c, env, nonces), fields[k..], next).1
    {
      SealFieldsAt(Sealer(c, env, nonces), fields, k, next);
      var inner;
      inner, next := SealEntry(c, env, nonces, fields[k], next);
      NewKey(fields, out, k);
      InsertNew(out, fields[k].0, inner);
      MoveOne(SealFields(Sealer(c, env, nonces), fields, i).0, out, (fields[k].0, inner),
              SealFields(Sealer(c, env, nonces), fields[k + 1..], next).0);
      out := Insert(out, fields[k].0, inner);
    }
    assert fields[|fields|..] == [];
  }

  /** One entry of an object. */
  method SealEntry(c: Crypto, env: Env, nonces: Nonces, field: (string, Json), i: nat)
    returns (inner: Json, next: nat)
    requires WellFormed(field.1)
    ensures inner == SealField(Sealer(c, env, nonces), field, i).0 && next == SealField(Sealer(c, env, nonces), field, i).1
    decreases field, 2
  {
    if IsSensitive(field.0) && field.1.Str? {
      inner, next := Str(SealSecret(c, env, nonces(i), field.1.s)), i + 1;
    } else {
      inner, next := SealSensitiveJson(c, env, nonces, field.1, i);
    }
  }

  /** The array case. */
  method SealArray(c: Crypto, env: Env, nonces: Nonces, items: seq<Json>, i: nat) returns (out: seq<Json>, next: nat)
    requires WellFormed(Arr(items))
    ensures out == SealItems(Sealer(c, env, nonces), items, i).0 && next == SealItems(Sealer(c, env, nonces), items, i).1
    decreases items, 0
  {
    out, next := [], i;
    assert items[0..] == items;
    for k := 0 to |items|
      invariant SealItems(Sealer(c, env, nonces), items, i).0 == out + SealItems(Sealer(c, env, nonces), items[k..], next).0
      invariant SealItems(Sealer(c, env, nonces), items, i).1 == SealItems(Sealer(c, env, nonces), items[k..], next).1
    {
      SealItemsAt(Sealer(c, env, nonces), items, k, next);
      var inner;
      inner, next := SealSensitiveJson(c, env, nonces, items[k], next);
      out := out + [inner];
    }
    assert items[|items|..] == [];
  }

  lemma OpenFieldsAt(g: OpenBy, fields: seq<(string, Json)>, k: nat)
    requires k < |fields|
    ensures OpenFields(g, fields[k..]) ==
            [(fields[k].0, OpenField(g, fields[k]))] + OpenFields(g, fields[k + 1..])
  {
    assert fields[k..][0] == fields[k] && fields[k..][1..] == fields[k + 1..];
  }

  lemma OpenItemsAt(g: OpenBy, items: seq<Json>, k: nat)
    requires k < |items|
    ensures OpenItems(g, items[k..]) == [OpenJson(g, items[k])] + OpenItems(g, items[k + 1..])
  {
    assert items[k..][0] == items[k] && items[k..][1..] == items[k + 1..];
  }

  /** `open_sensitive_json`. */
  method OpenSensitiveJson(c: Crypto, env: Env, v: Json) returns (plain: Json)
    requires WellFormed(v)
    ensures plain == OpenJson(Opener(c, env), v)
    decreases v, 1
  {
    match v
    case Obj(fields) =>
      var out := OpenObject(c, env, fields);
      plain := Obj(out);
    case Arr(items) =>
      var out := OpenArray(c, env, items);
      plain := Arr(out);
    case other => plain := other;
  }

  /** The object case: the output map is filled field by field. */
  method OpenObject(c: Crypto, env: Env, fields: seq<(string, Json)>) returns (out: seq<(string, Json)>)
    requires WellFormed(Obj(fields))
    ensures out == OpenFields(Opener(c, env), fields)
    decreases fields, 0
  {
    out := [];
    assert fields[0..] == fields;
    for k := 0 to |fields|
      invariant |out| == k && forall j :: 0 <= j < k ==> out[j].0 == fields[j].0
      invariant OpenFields(Opener(c, env), fields) == out + OpenFields(Opener(c, env), fields[k..])
    {
      OpenFieldsAt(Opener(c, env), fields, k);
      var inner := OpenEntry(c, env, fields[k]);
      NewKey(fields, out, k);
      InsertNew(out, fields[k].0, inner);
      MoveOne(OpenFields(Opener(c, env), fields), out, (fields[k].0, inner), OpenFields(Opener(c, env), fields[k + 1..]));
      out := Insert(out, fields[k].0, inner);
    }
    assert fields[|fields|..] == [];
  }

  /** One entry of an object. */
  method OpenEntry(c: Crypto, env: Env, field: (string, Json)) returns (inner: Json)
    requires WellFormed(field.1)
    ensures inner == OpenField(Opener(c, env), field)
    decreases field, 2
  {
    if IsSensitive(field.0) && field.1.Str? {
      inner := Str(OpenOrKeep(c, env, field.1.s));
    } else {
      inner := OpenSensitiveJson(c, env, field.1);
    }
  }

  /** The array case. */
  method OpenArray(c: Crypto, env: Env, items: seq<Json>) returns (out: seq<Json>)
    requires WellFormed(Arr(items))
    ensures out == OpenItems(Opener(c, env), items)
    decreases items, 0
  {
    out := [];
    assert items[0..] == items;
    for k := 0 to |items|
      invariant OpenItems(Opener(c, env), items) == out + OpenItems(Opener(c, env), items[k..])
    {
      OpenItemsAt(Opener(c, env), items, k);
      var inner := OpenSensitiveJson(c, env, items[k]);
      out := out + [inner];
    }
    assert items[|items|..] == [];
  }
}
