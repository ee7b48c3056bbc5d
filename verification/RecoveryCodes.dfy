/** Recovery codes: generation, formatting, normalisation and lookup by hash (pkg/auth/mfa.go). */
module RecoveryCodes {
  import opened Prelude
  import Phc

  const ALPHABET := "ABCDEFGHJKLMNPQRSTUVWXYZ23456789"

  const CODE_LENGTH := 12

  function CharOf(b: byte): char { ALPHABET[b % |ALPHABET|] }

  /** What the loop in generateRecoveryCode turns a byte buffer into. */
  function Chars(buffer: seq<byte>): string {
    seq(|buffer|, i requires 0 <= i < |buffer| => CharOf(buffer[i]))
  }

  /** Three groups of four, with a dash after the first and the second. */
  function Format(chars: string): (code: string)
    requires |chars| == CODE_LENGTH
    ensures |code| == 14
    ensures forall k | 0 <= k < 14 :: code[k] == if k == 4 || k == 9 then '-' else chars[k - k / 5]
  {
    chars[0..4] + "-" + chars[4..8] + "-" + chars[8..12]
  }

  /** generateRecoveryCode, given the bytes the random source put into the buffer. */
  method GenerateRecoveryCode(chars: array<byte>) returns (code: string)
    requires chars.Length == CODE_LENGTH
    modifies chars
    ensures code == Format(Chars(old(chars[..])))
    ensures forall i :: 0 <= i < chars.Length ==> chars[i] == Chars(old(chars[..]))[i] as int
  {
    var i := 0;
    while i < chars.Length
      invariant 0 <= i <= chars.Length
      invariant forall j :: 0 <= j < i ==> chars[j] == CharOf(old(chars[j])) as int
      invariant forall j :: i <= j < chars.Length ==> chars[j] == old(chars[j])
    {
      chars[i] := CharOf(chars[i]) as int;
      i := i + 1;
    }
    var text := seq(chars.Length, j requires 0 <= j < chars.Length reads chars => chars[j] as char);
    assert text == Chars(old(chars[..]));
    code := Format(text);
  }

  // ---- uniformity

  function Pow(b: nat, n: nat): nat {
    if n == 0 then 1 else b * Pow(b, n - 1)
  }

  predicate Below(b: byte, n: nat) { b < n }

  /** The bytes below n. */
  function BytesBelow(n: nat): set<byte> {
    set b: byte | 0 <= b < 256 && Below(b, n)
  }

  lemma {:induction false} BytesBelowSize(n: nat)
    requires n <= 256
    ensures |BytesBelow(n)| == n
  {
    if n == 0 {
      assert BytesBelow(0) == {};
    } else {
      BytesBelowSize(n - 1);
      assert BytesBelow(n) == BytesBelow(n - 1) + {n - 1};
    }
  }

  /** The bytes that give one character. */
  function BytesFor(c: char): set<byte> {
    set b: byte | 0 <= b < 256 && CharOf(b) == c
  }

  function Prepend(h: byte, tails: set<seq<byte>>): set<seq<byte>> {
    set t | t in tails :: [h] + t
  }

  /** Every way to put one of the given bytes in front of one of the given buffers. */
  function PrependAny(heads: set<byte>, tails: set<seq<byte>>): set<seq<byte>> {
    set h, t | h in heads && t in tails :: [h] + t
  }

  /** The buffers that are turned into the given characters. */
  function Preimages(s: string): set<seq<byte>> {
    if s == "" then {[]} else PrependAny(BytesFor(s[0]), Preimages(s[1..]))
  }

  function AllBuffers(n: nat): set<seq<byte>> {
    if n == 0 then {[]} else PrependAny(BytesBelow(256), AllBuffers(n - 1))
  }

  lemma PrependAnyMember(heads: set<byte>, tails: set<seq<byte>>, b: seq<byte>)
    ensures b in PrependAny(heads, tails) <==> b != [] && b[0] in heads && b[1..] in tails
  {
    if b in PrependAny(heads, tails) {
      var h, t :| h in heads && t in tails && b == [h] + t;
      assert b[1..] == t;
    }
    if b != [] && b[0] in heads && b[1..] in tails {
      assert b == [b[0]] + b[1..];
    }
  }

  lemma PrependMember(h: byte, tails: set<seq<byte>>, b: seq<byte>)
    ensures b in Prepend(h, tails) <==> b != [] && b[0] == h && b[1..] in tails
  {
    if b in Prepend(h, tails) {
      var t :| t in tails && b == [h] + t;
      assert b[1..] == t;
    }
    if b != [] && b[0] == h && b[1..] in tails {
      assert b == [b[0]] + b[1..];
    }
  }

  lemma {:induction false} PrependSize(h: byte, tails: set<seq<byte>>)
    ensures |Prepend(h, tails)| == |tails|
    decreases |tails|
  {
    if tails == {} {
      assert Prepend(h, tails) == {};
    } else {
      var t :| t in tails;
      PrependSize(h, tails - {t});
      PrependMember(h, tails - {t}, [h] + t);
      assert ([h] + t)[1..] == t;
      assert Prepend(h, tails) == Prepend(h, tails - {t}) + {[h] + t};
    }
  }

  lemma PrependAnySplit(heads: set<byte>, h: byte, tails: set<seq<byte>>)
    requires h in heads
    ensures PrependAny(heads, tails) == Prepend(h, tails) + PrependAny(heads - {h}, tails)
    ensures Prepend(h, tails) !! PrependAny(heads - {h}, tails)
  {
    forall b: seq<byte>
      ensures b in PrependAny(heads, tails) <==> b in Prepend(h, tails) + PrependAny(heads - {h}, tails)
      ensures b !in Prepend(h, tails) || b !in PrependAny(heads - {h}, tails)
    {
      PrependMember(h, tails, b);
      PrependAnyMember(heads, tails, b);
      PrependAnyMember(heads - {h}, tails, b);
    }
  }

  /** Taking one head away takes away as many buffers as there are tails. */
  lemma PrependAnyStep(heads: set<byte>, h: byte, tails: set<seq<byte>>)
    requires h in heads
    ensures |PrependAny(heads, tails)| == |tails| + |PrependAny(heads - {h}, tails)|
  {
    PrependSize(h, tails);
    PrependAnySplit(heads, h, tails);
  }

  lemma OneMore(n: nat, k: nat)
    requires n > 0
    ensures n * k == k + (n - 1) * k
  {
  }

  lemma {:induction false} PrependAnySize(heads: set<byte>, tails: set<seq<byte>>, size: nat)
    requires size == |heads|
    ensures |PrependAny(heads, tails)| == size * |tails|
    decreases size
  {
    if size == 0 {
      assert PrependAny(heads, tails) == {};
    } else {
      var h :| h in heads;
      PrependAnyStep(heads, h, tails);
      PrependAnySize(heads - {h}, tails, size - 1);
      OneMore(size, |tails|);
    }
  }

  /** Position of a character in the alphabet, when it has one. */
  function Index(c: char): Option<nat> {
    if 'A' <= c <= 'H' then Some(c as int - 'A' as int)
    else if 'J' <= c <= 'N' then Some(c as int - 'J' as int + 8)
    else if 'P' <= c <= 'Z' then Some(c as int - 'P' as int + 13)
    else if '2' <= c <= '9' then Some(c as int - '2' as int + 24)
    else None
  }

  lemma IndexOfAlphabet(i: nat)
    requires i < |ALPHABET|
    ensures Index(ALPHABET[i]) == Some(i)
  {
  }

  /** A byte gives a character exactly when its remainder is the character's position. */
  lemma CharIffRemainder(b: byte, i: nat)
    requires i < |ALPHABET|
    ensures CharOf(b) == ALPHABET[i] <==> b % 32 == i
  {
    IndexOfAlphabet(i);
    IndexOfAlphabet(b % 32);
  }

  predicate Strided(b: byte, i: nat, k: nat) { b % 32 == i && b / 32 < k }

  /** The bytes i, i + 32, ..., i + 32 (k - 1). */
  function EveryThirtyTwo(i: nat, k: nat): set<byte> {
    set b: byte | 0 <= b < 256 && Strided(b, i, k)
  }

  lemma {:induction false} EveryThirtyTwoSize(i: nat, k: nat)
    requires i < 32 && k <= 8
    ensures |EveryThirtyTwo(i, k)| == k
  {
    if k == 0 {
      assert EveryThirtyTwo(i, 0) == {};
    } else {
      EveryThirtyTwoSize(i, k - 1);
      assert EveryThirtyTwo(i, k) == EveryThirtyTwo(i, k - 1) + {i + 32 * (k - 1)};
    }
  }

  lemma BytesForSize(c: char)
    requires c in ALPHABET
    ensures |BytesFor(c)| == 8
  {
    var i: nat :| i < |ALPHABET| && ALPHABET[i] == c;
    forall b: byte ensures b in BytesFor(c) <==> b in EveryThirtyTwo(i, 8) { CharIffRemainder(b, i); }
    assert BytesFor(c) == EveryThirtyTwo(i, 8);
    EveryThirtyTwoSize(i, 8);
  }

  lemma {:induction false} PreimagesExact(s: string, buffer: seq<byte>)
    ensures buffer in Preimages(s) <==> Chars(buffer) == s
  {
    if s != "" {
      PrependAnyMember(BytesFor(s[0]), Preimages(s[1..]), buffer);
      if buffer != [] {
        PreimagesExact(s[1..], buffer[1..]);
        assert Chars(buffer) == [CharOf(buffer[0])] + Chars(buffer[1..]);
        assert s == [s[0]] + s[1..];
      }
    }
  }

  lemma {:induction false} AllBuffersExact(n: nat, buffer: seq<byte>)
    ensures buffer in AllBuffers(n) <==> |buffer| == n
  {
    if n > 0 {
      PrependAnyMember(BytesBelow(256), AllBuffers(n - 1), buffer);
      if buffer != [] {
        AllBuffersExact(n - 1, buffer[1..]);
      }
    }
  }

  predicate OverAlphabet(s: string) {
    forall i :: 0 <= i < |s| ==> s[i] in ALPHABET
  }

  lemma OverAlphabetStep(s: string)
    requires s != ""
    ensures OverAlphabet(s) <==> s[0] in ALPHABET && OverAlphabet(s[1..])
  {
  }

  lemma {:induction false} PreimagesSize(s: string)
    ensures |Preimages(s)| == if OverAlphabet(s) then Pow(8, |s|) else 0
  {
    if s != "" {
      PreimagesSize(s[1..]);
      PrependAnySize(BytesFor(s[0]), Preimages(s[1..]), |BytesFor(s[0])|);
      OverAlphabetStep(s);
      if s[0] in ALPHABET {
        BytesForSize(s[0]);
      } else {
        assert BytesFor(s[0]) == {};
      }
    }
  }

  lemma {:induction false} AllBuffersSize(n: nat)
    ensures |AllBuffers(n)| == Pow(256, n)
  {
    if n > 0 {
      AllBuffersSize(n - 1);
      BytesBelowSize(256);
      PrependAnySize(BytesBelow(256), AllBuffers(n - 1), 256);
    }
  }

  /**
   * No code is favoured: for every length n, each string over the alphabet comes from exactly 8^n of
   * the 256^n buffers of that length, and no other string comes from any.
   */
  lemma Uniform(s: string)
    ensures forall b: seq<byte> :: b in AllBuffers(|s|) <==> |b| == |s|
    ensures forall b: seq<byte> :: b in Preimages(s) <==> Chars(b) == s
    ensures |AllBuffers(|s|)| == Pow(256, |s|)
    ensures |Preimages(s)| == if OverAlphabet(s) then Pow(8, |s|) else 0
  {
    forall b: seq<byte>
      ensures b in AllBuffers(|s|) <==> |b| == |s|
      ensures b in Preimages(s) <==> Chars(b) == s
    {
      AllBuffersExact(|s|, b);
      PreimagesExact(s, b);
    }
    AllBuffersSize(|s|);
    PreimagesSize(s);
  }

  // ---- normalisation

  /** strings.ReplaceAll with an empty replacement. */
  function Remove(s: string, c: char): string {
    if s == "" then "" else (if s[0] == c then "" else [s[0]]) + Remove(s[1..], c)
  }

  /** unicode.ToUpper: a map of single characters of which only these facts are used. */
  type Casing = char -> char

  function AsciiUpper(c: char): char {
    if 'a' <= c <= 'z' then (c as int - 32) as char else c
  }

  predicate IsAscii(c: char) { c as int < 128 }

  predicate IsSeparator(c: char) { c == '-' || c == ' ' }

  ghost predicate IsUpperCasing(up: Casing) {
    (forall c :: IsAscii(c) ==> up(c) == AsciiUpper(c)) &&
    (forall c :: !IsSeparator(c) ==> !IsSeparator(up(c))) &&
    forall c :: up(up(c)) == up(c)
  }

  lemma AsciiUpperIsOne()
    ensures IsUpperCasing(AsciiUpper)
  {
  }

  function ToUpper(up: Casing, s: string): string {
    seq(|s|, i requires 0 <= i < |s| => up(s[i]))
  }

  /** The normalisation VerifyRecoveryCode applies to what the user typed. */
  function Normalize(up: Casing, code: string): string {
    ToUpper(up, Remove(Remove(code, '-'), ' '))
  }

  predicate IsLetter(c: char) { 'a' <= c <= 'z' || 'A' <= c <= 'Z' }

  predicate SameLetter(c: char, d: char) {
    c == d || (IsLetter(c) && IsLetter(d) && (c as int - d as int == 32 || d as int - c as int == 32))
  }

  /** Two inputs that differ only in dashes, spaces and what the given relation identifies, read side by side. */
  predicate SameCode(same: (char, char) -> bool, a: string, b: string)
    decreases |a| + |b|
  {
    if a != "" && IsSeparator(a[0]) then SameCode(same, a[1..], b)
    else if b != "" && IsSeparator(b[0]) then SameCode(same, a, b[1..])
    else if a == "" || b == "" then a == b
    else same(a[0], b[0]) && SameCode(same, a[1..], b[1..])
  }

  lemma NormalizeStep(up: Casing, s: string)
    ensures s != "" ==> Normalize(up, s) == (if IsSeparator(s[0]) then "" else [up(s[0])]) + Normalize(up, s[1..])
  {
    if s != "" {
      var t := Remove(Remove(s[1..], '-'), ' ');
      if s[0] == '-' {
        assert Remove(s, '-') == Remove(s[1..], '-');
      } else {
        assert Remove(s, '-') == [s[0]] + Remove(s[1..], '-');
        assert Remove(s, '-')[1..] == Remove(s[1..], '-');
        if s[0] != ' ' {
          assert Remove(Remove(s, '-'), ' ') == [s[0]] + t;
          assert ToUpper(up, [s[0]] + t) == [up(s[0])] + ToUpper(up, t);
        }
      }
    }
  }

  /** Two inputs become the same code exactly when they differ only in dashes, spaces and letter case. */
  lemma {:induction false} NormalizeEqualIff(up: Casing, a: string, b: string)
    ensures Normalize(up, a) == Normalize(up, b) <==> SameCode((c, d) => up(c) == up(d), a, b)
    decreases |a| + |b|
  {
    NormalizeStep(up, a);
    NormalizeStep(up, b);
    if a != "" && IsSeparator(a[0]) {
      NormalizeEqualIff(up, a[1..], b);
    } else if b != "" && IsSeparator(b[0]) {
      NormalizeEqualIff(up, a, b[1..]);
    } else if a != "" && b != "" {
      NormalizeEqualIff(up, a[1..], b[1..]);
      assert Normalize(up, a)[1..] == Normalize(up, a[1..]) && Normalize(up, b)[1..] == Normalize(up, b[1..]);
    }
  }

  predicate AllAscii(s: string) { forall i :: 0 <= i < |s| ==> IsAscii(s[i]) }

  lemma UpperIdentifiesCase(up: Casing, c: char, d: char)
    requires IsUpperCasing(up) && IsAscii(c) && IsAscii(d)
    ensures up(c) == up(d) <==> SameLetter(c, d)
  {
    assert up(c) == AsciiUpper(c) && up(d) == AsciiUpper(d);
  }

  /** For ASCII text letter case means what it says. */
  lemma {:induction false} NormalizeAsciiIff(up: Casing, a: string, b: string)
    requires IsUpperCasing(up) && AllAscii(a) && AllAscii(b)
    ensures Normalize(up, a) == Normalize(up, b) <==> SameCode(SameLetter, a, b)
    decreases |a| + |b|
  {
    NormalizeStep(up, a);
    NormalizeStep(up, b);
    if a != "" && IsSeparator(a[0]) {
      NormalizeAsciiIff(up, a[1..], b);
    } else if b != "" && IsSeparator(b[0]) {
      NormalizeAsciiIff(up, a, b[1..]);
    } else if a != "" && b != "" {
      NormalizeAsciiIff(up, a[1..], b[1..]);
      UpperIdentifiesCase(up, a[0], b[0]);
      assert Normalize(up, a)[1..] == Normalize(up, a[1..]) && Normalize(up, b)[1..] == Normalize(up, b[1..]);
    }
  }

  predicate IsClean(up: Casing, s: string) {
    forall i :: 0 <= i < |s| ==> !IsSeparator(s[i]) && up(s[i]) == s[i]
  }

  lemma {:induction false} NormalizeClean(up: Casing, s: string)
    requires IsUpperCasing(up)
    ensures IsClean(up, Normalize(up, s))
  {
    NormalizeStep(up, s);
    if s != "" {
      NormalizeClean(up, s[1..]);
      assert up(up(s[0])) == up(s[0]);
    }
  }

  lemma {:induction false} NormalizeFixed(up: Casing, s: string)
    requires IsClean(up, s)
    ensures Normalize(up, s) == s
  {
    NormalizeStep(up, s);
    if s != "" {
      NormalizeFixed(up, s[1..]);
      assert s == [s[0]] + s[1..];
    }
  }

  lemma NormalizeIdempotent(up: Casing, s: string)
    requires IsUpperCasing(up)
    ensures Normalize(up, Normalize(up, s)) == Normalize(up, s)
  {
    NormalizeClean(up, s);
    NormalizeFixed(up, Normalize(up, s));
  }

  lemma ConcatAssociates(a: string, b: string, c: string)
    ensures (a + b) + c == a + (b + c)
  {
  }

  lemma {:induction false} NormalizeConcat(up: Casing, a: string, b: string)
    ensures Normalize(up, a + b) == Normalize(up, a) + Normalize(up, b)
  {
    if a == "" {
      assert a + b == b;
    } else {
      NormalizeStep(up, a);
      NormalizeStep(up, a + b);
      assert (a + b)[1..] == a[1..] + b && (a + b)[0] == a[0];
      NormalizeConcat(up, a[1..], b);
      var head := if IsSeparator(a[0]) then "" else [up(a[0])];
      ConcatAssociates(head, Normalize(up, a[1..]), Normalize(up, b));
    }
  }

  lemma CharsClean(up: Casing, buffer: seq<byte>)
    requires IsUpperCasing(up)
    ensures IsClean(up, Chars(buffer))
  {
    forall i | 0 <= i < |buffer| ensures !IsSeparator(CharOf(buffer[i])) && up(CharOf(buffer[i])) == CharOf(buffer[i]) {
      IndexOfAlphabet(buffer[i] % 32);
      assert IsAscii(CharOf(buffer[i]));
    }
  }

  lemma NormalizeDashed(up: Casing, a: string, b: string)
    requires IsClean(up, a)
    ensures Normalize(up, a + "-" + b) == a + Normalize(up, b)
  {
    NormalizeConcat(up, a + "-", b);
    NormalizeConcat(up, a, "-");
    NormalizeStep(up, "-");
    NormalizeFixed(up, a);
  }

  lemma NormalizeGroups(up: Casing, a: string, b: string, c: string)
    requires IsClean(up, a) && IsClean(up, b) && IsClean(up, c)
    ensures Normalize(up, a + "-" + (b + "-" + c)) == a + (b + c)
  {
    NormalizeDashed(up, a, b + "-" + c);
    NormalizeDashed(up, b, c);
    NormalizeFixed(up, c);
  }

  lemma Groups(c: string)
    requires |c| == CODE_LENGTH
    ensures Format(c) == c[0..4] + "-" + (c[4..8] + "-" + c[8..12])
    ensures c == c[0..4] + (c[4..8] + c[8..12])
  {
  }

  /** Normalising a generated code gives back its characters without the dashes. */
  lemma NormalizeUndoesFormat(up: Casing, buffer: seq<byte>)
    requires IsUpperCasing(up) && |buffer| == CODE_LENGTH
    ensures Normalize(up, Format(Chars(buffer))) == Chars(buffer)
  {
    var c := Chars(buffer);
    CharsClean(up, buffer);
    Groups(c);
    NormalizeGroups(up, c[0..4], c[4..8], c[8..12]);
  }

  // ---- lookup by hash

  /** What SetupTOTP stores for a generated code: the hash of the dashed form. */
  function StoredHash(kdf: Phc.Kdf, code: string, salt: seq<byte>): string {
    Phc.HashPassword(kdf, code, salt)
  }

  /** What VerifyRecoveryCode looks for: the hash of the normalised input under a new salt. */
  function LookupHash(kdf: Phc.Kdf, up: Casing, input: string, salt: seq<byte>): string {
    Phc.HashPassword(kdf, Normalize(up, input), salt)
  }

  lemma NormalizedIsUndashed(up: Casing, buffer: seq<byte>, input: string)
    requires IsUpperCasing(up) && |buffer| == CODE_LENGTH
    ensures Normalize(up, input) != Format(Chars(buffer))
  {
    NormalizeClean(up, input);
    assert Format(Chars(buffer))[4] == '-';
  }

  /**
   * The lookup finds a stored code exactly when the new salt happens to be the stored one and the
   * derived keys of two different texts coincide: the stored text has dashes, the looked-up text never.
   */
  lemma LookupFindsIff(kdf: Phc.Kdf, up: Casing, buffer: seq<byte>, input: string, stored: seq<byte>,
                       newSalt: seq<byte>)
    requires IsUpperCasing(up) && |buffer| == CODE_LENGTH
    ensures LookupHash(kdf, up, input, newSalt) == StoredHash(kdf, Format(Chars(buffer)), stored) <==>
      newSalt == stored && Phc.Key(kdf, Normalize(up, input), stored) == Phc.Key(kdf, Format(Chars(buffer)), stored)
    ensures Normalize(up, input) != Format(Chars(buffer))
  {
    Phc.SameHashIff(kdf, Normalize(up, input), Format(Chars(buffer)), newSalt, stored);
    NormalizedIsUndashed(up, buffer, input);
  }

  predicate Finds(kdf: Phc.Kdf, up: Casing, input: string, newSalt: seq<byte>, hash: string) {
    LookupHash(kdf, up, input, newSalt) == hash
  }

  /** The salts, of those as long as the stored one, under which the lookup finds the stored hash. */
  function FindingSalts(kdf: Phc.Kdf, up: Casing, input: string, hash: string, n: nat): set<seq<byte>> {
    set salt | salt in AllBuffers(n) && Finds(kdf, up, input, salt, hash)
  }

  /** The undashed input and the dashed code derive the same key. */
  predicate Collides(kdf: Phc.Kdf, up: Casing, input: string, code: string, salt: seq<byte>) {
    Phc.Key(kdf, Normalize(up, input), salt) == Phc.Key(kdf, code, salt)
  }

  lemma FindingSaltsExactly(kdf: Phc.Kdf, up: Casing, input: string, code: string, stored: seq<byte>, n: nat)
    requires stored in AllBuffers(n)
    requires forall salt :: Finds(kdf, up, input, salt, StoredHash(kdf, code, stored)) <==>
      salt == stored && Collides(kdf, up, input, code, stored)
    ensures FindingSalts(kdf, up, input, StoredHash(kdf, code, stored), n) ==
      if Collides(kdf, up, input, code, stored) then {stored} else {}
  {
  }

  /**
   * Of the 256^n salts of the stored length that the lookup may draw, an input finds the code under at most one,
   * and under none unless it derives the same key as a text that differs from it.
   */
  lemma AtMostOneSaltFinds(kdf: Phc.Kdf, up: Casing, buffer: seq<byte>, input: string, stored: seq<byte>, n: nat)
    requires IsUpperCasing(up) && |buffer| == CODE_LENGTH && n == |stored|
    ensures var code := Format(Chars(buffer));
      Normalize(up, input) != code &&
      FindingSalts(kdf, up, input, StoredHash(kdf, code, stored), n) ==
        if Collides(kdf, up, input, code, stored) then {stored} else {}
    ensures |AllBuffers(n)| == Pow(256, n)
  {
    var code := Format(Chars(buffer));
    AllBuffersSize(n);
    AllBuffersExact(n, stored);
    NormalizedIsUndashed(up, buffer, input);
    forall salt: seq<byte>
      ensures Finds(kdf, up, input, salt, StoredHash(kdf, code, stored)) <==>
        salt == stored && Collides(kdf, up, input, code, stored)
    {
      LookupFindsIff(kdf, up, buffer, input, stored, salt);
    }
    FindingSaltsExactly(kdf, up, input, code, stored, n);
  }
}
