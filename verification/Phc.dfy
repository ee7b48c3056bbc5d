/**
 * Password hashes in PHC text form (pkg/auth/crypto.go) and the hashing and verification
 * built on them (pkg/auth/password.go). Text is a sequence of code points.
 */
module Phc {
  import opened Prelude
  import opened Text
  import Base64

  const UINT32 := 0x1_0000_0000
  const UINT8 := 0x100
  const INT64 := 0x8000_0000_0000_0000

  datatype Params = Params(hash: seq<byte>, salt: seq<byte>, time: nat, memory: nat, threads: nat)

  datatype PhcError = BadFormat | BadType | BadVersion | BadCosts | BadSalt | BadHash

  /** The values a Go caller can pass: uint32 time and memory, uint8 threads. */
  predicate InRange(p: Params) {
    p.time < UINT32 && p.memory < UINT32 && p.threads < UINT8
  }

  function CostText(memory: nat, time: nat, threads: nat, rest: string): string {
    "m=" + (Decimal(memory) + (",t=" + (Decimal(time) + (",p=" + (Decimal(threads) + rest)))))
  }

  /** The six parts of a text shaped like an encoded hash, with room for text that does not matter. */
  function Parts(before: string, kind: string, version: nat, after: string, p: Params): seq<string> {
    [before, kind, "v=" + Decimal(version), CostText(p.memory, p.time, p.threads, after),
     Base64.Encode(Base64.RAW_STD, p.salt), Base64.Encode(Base64.RAW_STD, p.hash)]
  }

  /** encodeArgon2Hash: $argon2id$v=19$m=..,t=..,p=..$salt$hash */
  function EncodeHash(p: Params): string {
    Join(Parts("", "argon2id", 19, "", p), '$')
  }

  /** Sscanf(s, "v=%d") into an int: an optional sign, then digits; what follows is ignored. */
  function ScanVersion(s: string): Option<int> {
    var t := ScanLiteral(s, "v=");
    if t.None? then None
    else
      var u := SkipSpace(t.value);
      if u.None? || u.value == "" then None
      else
        var signed := u.value[0] == '-' || u.value[0] == '+';
        var digits := if signed then u.value[1..] else u.value;
        var k := DigitCount(digits);
        DigitCountIsPrefix(digits);
        if k == 0 then None
        else
          var v := DigitsValue(digits[..k]);
          if v >= INT64 then None else if u.value[0] == '-' then Some(-(v as int)) else Some(v as int)
  }

  /** Sscanf(s, "m=%d,t=%d,p=%d") into two uint32 and one uint8; what follows is ignored. */
  function ScanCosts(s: string): Option<(nat, nat, nat)> {
    var m := ScanField(s, "m=", UINT32);
    if m.Stopped? then None
    else
      var t := ScanField(m.rest, ",t=", UINT32);
      if t.Stopped? then None
      else
        var p := ScanField(t.rest, ",p=", UINT8);
        if p.Stopped? then None else Some((m.value, t.value, p.value))
  }

  /** decodeArgon2Hash. The text before the first '$' is not looked at. */
  function DecodeHash(encoded: string): Result<Params, PhcError> {
    var parts := SplitN(encoded, '$', -1);
    if |parts| != 6 then Err(BadFormat)
    else if parts[1] != "argon2id" then Err(BadType)
    else if ScanVersion(parts[2]) != Some(19) then Err(BadVersion)
    else
      var costs := ScanCosts(parts[3]);
      if costs.None? then Err(BadCosts)
      else
        var salt := Base64.Decode(Base64.RAW_STD, parts[4]);
        if salt.None? then Err(BadSalt)
        else
          var hash := Base64.Decode(Base64.RAW_STD, parts[5]);
          if hash.None? then Err(BadHash)
          else Ok(Params(hash.value, salt.value, costs.value.1, costs.value.0, costs.value.2))
  }

  lemma JoinCons(head: string, tail: seq<string>)
    requires tail != []
    ensures Join([head] + tail, '$') == head + "$" + Join(tail, '$')
  {
    assert ([head] + tail)[1..] == tail;
  }

  lemma JoinSix(a: string, b: string, c: string, d: string, e: string, f: string)
    ensures Join([a, b, c, d, e, f], '$') == a + "$" + (b + "$" + (c + "$" + (d + "$" + (e + "$" + f))))
  {
    JoinCons(a, [b, c, d, e, f]);
    JoinCons(b, [c, d, e, f]);
    JoinCons(c, [d, e, f]);
    JoinCons(d, [e, f]);
    JoinCons(e, [f]);
    assert [a, b, c, d, e, f] == [a] + [b, c, d, e, f] && [b, c, d, e, f] == [b] + [c, d, e, f];
    assert [c, d, e, f] == [c] + [d, e, f] && [d, e, f] == [d] + [e, f] && [e, f] == [e] + [f];
  }

  /** The text in full. */
  lemma EncodeText(p: Params)
    ensures var salt, hash := Base64.Encode(Base64.RAW_STD, p.salt), Base64.Encode(Base64.RAW_STD, p.hash);
      var costs := "m=" + Decimal(p.memory) + ",t=" + Decimal(p.time) + ",p=" + Decimal(p.threads);
      EncodeHash(p) == "$argon2id$v=19$" + costs + "$" + salt + "$" + hash
  {
    var salt, hash := Base64.Encode(Base64.RAW_STD, p.salt), Base64.Encode(Base64.RAW_STD, p.hash);
    assert Decimal(1) == "1" && Decimal(19) == "1" + "9" && "v=" + ("1" + "9") == "v=19";
    JoinSix("", "argon2id", "v=19", CostText(p.memory, p.time, p.threads, ""), salt, hash);
    CostsInFull(Decimal(p.memory), Decimal(p.time), Decimal(p.threads));
    Flat("m=" + Decimal(p.memory) + ",t=" + Decimal(p.time) + ",p=" + Decimal(p.threads), salt, hash);
  }

  lemma CostsInFull(m: string, t: string, p: string)
    ensures "m=" + (m + (",t=" + (t + (",p=" + (p + ""))))) == "m=" + m + ",t=" + t + ",p=" + p
  {
    assert ",p=" + (p + "") == ",p=" + p;
    assert ",t=" + (t + (",p=" + p)) == ",t=" + t + ",p=" + p;
  }

  lemma Flat(costs: string, salt: string, hash: string)
    ensures "" + "$" + ("argon2id" + "$" + ("v=19" + "$" + (costs + "$" + (salt + "$" + hash)))) ==
      "$argon2id$v=19$" + costs + "$" + salt + "$" + hash
  {
    assert "" + "$" + ("argon2id" + "$" + ("v=19" + "$")) == "$argon2id$v=19$";
    assert costs + "$" + (salt + "$" + hash) == costs + "$" + salt + "$" + hash;
  }

  // ---- what decoding makes of text of this shape

  lemma ScanVersionText(version: nat)
    ensures (ScanVersion("v=" + Decimal(version)) == Some(19)) <==> version == 19
  {
    var d := Decimal(version);
    var s := "v=" + d;
    assert s[..2] == "v=" && s[2..] == d;
    DecimalDigits(version);
    assert IsDigit(d[0]);
    DigitCountStops(d, "");
    assert d + "" == d && d[..|d|] == d;
  }

  lemma ScanCostText(memory: nat, time: nat, threads: nat, rest: string)
    requires rest == "" || !IsDigit(rest[0])
    ensures ScanCosts(CostText(memory, time, threads, rest)) ==
      if memory < UINT32 && time < UINT32 && threads < UINT8 then Some((memory, time, threads)) else None
  {
    var p := ",p=" + (Decimal(threads) + rest);
    var t := ",t=" + (Decimal(time) + p);
    ScanFieldText("m=", memory, t, UINT32);
    ScanFieldText(",t=", time, p, UINT32);
    ScanFieldText(",p=", threads, rest, UINT8);
  }

  lemma NoDollar(before: string, kind: string, version: nat, after: string, p: Params)
    requires '$' !in before && '$' !in kind && '$' !in after
    ensures forall part :: part in Parts(before, kind, version, after, p) ==> '$' !in part
  {
    DecimalDigits(version);
    DecimalDigits(p.memory);
    DecimalDigits(p.time);
    DecimalDigits(p.threads);
    Base64.EncodeAlphabet(Base64.RAW_STD, p.salt);
    Base64.EncodeAlphabet(Base64.RAW_STD, p.hash);
  }

  lemma SplitParts(before: string, kind: string, version: nat, after: string, p: Params)
    requires '$' !in before && '$' !in kind && '$' !in after
    ensures var parts := Parts(before, kind, version, after, p); SplitN(Join(parts, '$'), '$', -1) == parts
  {
    NoDollar(before, kind, version, after, p);
    SplitJoin(Parts(before, kind, version, after, p), '$', -1);
  }

  /**
   * Text of this shape decodes exactly when its type is argon2id, its version 19 and its costs
   * fit their integer widths, and then to exactly the values that went in. The text before the
   * first '$' and any text after the last cost does not matter.
   */
  lemma DecodeParts(before: string, kind: string, version: nat, after: string, p: Params)
    requires '$' !in before && '$' !in kind && '$' !in after
    requires after == "" || !IsDigit(after[0])
    ensures DecodeHash(Join(Parts(before, kind, version, after, p), '$')).Ok? <==>
      kind == "argon2id" && version == 19 && InRange(p)
    ensures DecodeHash(Join(Parts(before, kind, version, after, p), '$')).Ok? ==>
      DecodeHash(Join(Parts(before, kind, version, after, p), '$')) == Ok(p)
  {
    SplitParts(before, kind, version, after, p);
    ScanVersionText(version);
    ScanCostText(p.memory, p.time, p.threads, after);
    Base64.RoundTrip(Base64.RAW_STD, p.salt);
    Base64.RoundTrip(Base64.RAW_STD, p.hash);
  }

  lemma RoundTrip(p: Params)
    requires InRange(p)
    ensures DecodeHash(EncodeHash(p)) == Ok(p)
  {
    DecodeParts("", "argon2id", 19, "", p);
  }

  lemma EncodeInjective(p: Params, q: Params)
    requires InRange(p) && InRange(q)
    ensures EncodeHash(p) == EncodeHash(q) ==> p == q
  {
    RoundTrip(p);
    RoundTrip(q);
  }

  // ---- hashing and verifying passwords

  const TIME := 1
  const MEMORY := 64 * 1024
  const THREADS := 4
  const KEY_LEN := 32

  /** A key derivation function: password, salt, time, memory, threads, key length. */
  type Kdf = (string, seq<byte>, nat, nat, nat, nat) -> seq<byte>

  /** Argon2 returns as many bytes as it is asked for. */
  ghost predicate KeepsKeyLength(kdf: Kdf) {
    forall pw, salt, t, m, p, n :: |kdf(pw, salt, t, m, p, n)| == n
  }

  function Key(kdf: Kdf, password: string, salt: seq<byte>): seq<byte> {
    kdf(password, salt, TIME, MEMORY, THREADS, KEY_LEN)
  }

  function HashPassword(kdf: Kdf, password: string, salt: seq<byte>): string {
    EncodeHash(Params(Key(kdf, password, salt), salt, TIME, MEMORY, THREADS))
  }

  predicate VerifyPassword(kdf: Kdf, password: string, encoded: string) {
    var d := DecodeHash(encoded);
    d.Ok? &&
    d.value.hash == kdf(password, d.value.salt, d.value.time, d.value.memory, d.value.threads, |d.value.hash|)
  }

  /** A stored hash accepts exactly the passwords with the same derived key. */
  lemma VerifyIffSameKey(kdf: Kdf, stored: string, given: string, salt: seq<byte>)
    requires KeepsKeyLength(kdf)
    ensures VerifyPassword(kdf, given, HashPassword(kdf, stored, salt)) <==>
      Key(kdf, given, salt) == Key(kdf, stored, salt)
  {
    RoundTrip(Params(Key(kdf, stored, salt), salt, TIME, MEMORY, THREADS));
  }

  /**
   * Text of this shape accepts a password exactly when its type, version and costs are right and the password
   * derives its hash under its own salt, costs and length.
   */
  lemma VerifyParts(kdf: Kdf, password: string, before: string, kind: string, version: nat, after: string, p: Params)
    requires '$' !in before && '$' !in kind && '$' !in after
    requires after == "" || !IsDigit(after[0])
    ensures VerifyPassword(kdf, password, Join(Parts(before, kind, version, after, p), '$')) <==>
      kind == "argon2id" && version == 19 && InRange(p) &&
      p.hash == kdf(password, p.salt, p.time, p.memory, p.threads, |p.hash|)
  {
    DecodeParts(before, kind, version, after, p);
  }

  function Count(s: string, c: char): nat {
    if s == "" then 0 else (if s[0] == c then 1 else 0) + Count(s[1..], c)
  }

  lemma {:induction false} CountInTwo(a: string, b: string, c: char)
    ensures Count(a + b, c) == Count(a, c) + Count(b, c)
  {
    if a == "" { assert a + b == b; }
    else {
      CountInTwo(a[1..], b, c);
      assert (a + b)[1..] == a[1..] + b;
    }
  }

  lemma {:induction false} CountNone(s: string, c: char)
    requires c !in s
    ensures Count(s, c) == 0
  {
    if s != "" { CountNone(s[1..], c); }
  }

  lemma {:induction false} SplitCounts(s: string, c: char, n: int)
    requires n < 0
    ensures |SplitN(s, c, n)| == Count(s, c) + 1
    decreases |s|
  {
    if c in s {
      var i := IndexOf(s, c);
      SplitCounts(s[i + 1..], c, n - 1);
      assert s == s[..i] + ([c] + s[i + 1..]);
      CountInTwo(s[..i], [c] + s[i + 1..], c);
      CountInTwo([c], s[i + 1..], c);
      CountNone(s[..i], c);
      assert [c][1..] == "";
    } else { CountNone(s, c); }
  }

  /** Text that does not consist of six parts accepts no password. */
  lemma OtherShapesRefused(kdf: Kdf, password: string, text: string)
    ensures VerifyPassword(kdf, password, text) ==> Count(text, '$') == 5
  {
    SplitCounts(text, '$', -1);
  }

  /** Two hashes are the same text only for the same salt and the same derived key. */
  lemma SameHashIff(kdf: Kdf, p: string, q: string, salt: seq<byte>, salt': seq<byte>)
    ensures HashPassword(kdf, p, salt) == HashPassword(kdf, q, salt') <==>
      salt == salt' && Key(kdf, p, salt) == Key(kdf, q, salt')
  {
    EncodeInjective(Params(Key(kdf, p, salt), salt, TIME, MEMORY, THREADS),
                    Params(Key(kdf, q, salt'), salt', TIME, MEMORY, THREADS));
  }
}
