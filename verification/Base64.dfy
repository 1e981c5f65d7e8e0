// The hand-written base64 decoder, against the encoding of RFC 4648, section 4.
module Base64 {
  import opened Text
  import opened Sorting

  type Byte = n: int | 0 <= n < 256
  type Sextet = n: int | 0 <= n < 64

  const UPPER: string := "ABCDEFGHIJKLMNOPQRSTUVWXYZ"
  const LOWER: string := "abcdefghijklmnopqrstuvwxyz"
  const OTHER: string := "0123456789+/"
  const ALPHABET: string := UPPER + LOWER + OTHER
  const PAD: Byte := 61

  // ---- Letters ----

  // The alphabet's letter for six bits.
  function LetterOf(v: Sextet): Byte {
    if v < 26 then 65 + v else if v < 52 then 71 + v else if v < 62 then v - 4 else if v == 62 then 43 else 47
  }

  predicate InAlphabet(c: Byte) {
    65 <= c <= 90 || 97 <= c <= 122 || 48 <= c <= 57 || c == 43 || c == 47
  }

  // The six bits of a letter; the decoder reads anything else as zeros.
  function SextetOf(c: Byte): Sextet {
    if 65 <= c <= 90 then c - 65
    else if 97 <= c <= 122 then c - 71
    else if 48 <= c <= 57 then c + 4
    else if c == 43 then 62
    else if c == 47 then 63
    else 0
  }

  lemma LettersRoundTrip(v: Sextet, c: Byte)
    ensures InAlphabet(LetterOf(v)) && LetterOf(v) != PAD && SextetOf(LetterOf(v)) == v
    ensures LetterOf(SextetOf(c)) == c <==> InAlphabet(c)
  {
  }

  lemma UpperSpelled(i: nat)
    requires i < 26
    ensures |UPPER| == 26 && UPPER[i] as int == 65 + i
  {
  }

  lemma LowerSpelled(i: nat)
    requires i < 26
    ensures |LOWER| == 26 && LOWER[i] as int == 97 + i
  {
  }

  lemma OtherSpelled(i: nat)
    requires i < 12
    ensures |OTHER| == 12 && OTHER[i] as int == if i < 10 then 48 + i else if i == 10 then 43 else 47
  {
  }

  lemma AlphabetSpelled(i: nat)
    requires i < 64
    ensures |ALPHABET| == 64 && ALPHABET[i] as int == LetterOf(i)
  {
    UpperSpelled(if i < 26 then i else 0);
    LowerSpelled(if 26 <= i < 52 then i - 26 else 0);
    OtherSpelled(if 52 <= i then i - 52 else 0);
  }

  function Letters(v: seq<Sextet>): seq<Byte> {
    Mapped(v, LetterOf)
  }

  function Sextets(t: seq<Byte>): seq<Sextet> {
    Mapped(t, SextetOf)
  }

  lemma LettersAndBack(v: seq<Sextet>)
    ensures PAD !in Letters(v) && Sextets(Letters(v)) == v
  {
    forall i | 0 <= i < |v|
      ensures Letters(v)[i] != PAD && SextetOf(Letters(v)[i]) == v[i]
    {
      LettersRoundTrip(v[i], 0);
    }
  }

  // ---- Bytes as six-bit groups ----

  function Groups(b: seq<Byte>): seq<Sextet> {
    if b == [] then []
    else if |b| == 1 then [b[0] / 4, b[0] % 4 * 16]
    else if |b| == 2 then [b[0] / 4, b[0] % 4 * 16 + b[1] / 16, b[1] % 16 * 4]
    else [b[0] / 4, b[0] % 4 * 16 + b[1] / 16, b[1] % 16 * 4 + b[2] / 64, b[2] % 64] + Groups(b[3..])
  }

  function Encode(b: seq<Byte>, padded: bool): seq<Byte> {
    Letters(Groups(b)) + if padded then seq((3 - |b| % 3) % 3, _ => PAD) else []
  }

  function First(a: Sextet, b: Sextet): Byte { a * 4 + b / 16 }
  function Second(b: Sextet, c: Sextet): Byte { b % 16 * 16 + c / 4 }
  function Third(c: Sextet, d: Sextet): Byte { c % 4 * 64 + d }

  // The whole bytes in a run of six-bit groups; bits left over are dropped.
  ghost function Bytes(v: seq<Sextet>): seq<Byte> {
    if |v| < 2 then []
    else if |v| == 2 then [First(v[0], v[1])]
    else if |v| == 3 then [First(v[0], v[1]), Second(v[1], v[2])]
    else [First(v[0], v[1]), Second(v[1], v[2]), Third(v[2], v[3])] + Bytes(v[4..])
  }

  // ---- The decoder ----

  // Bitwise "or" of two unsigned numbers.
  function BitOr(x: nat, y: nat): nat {
    if x == 0 && y == 0 then 0 else 2 * BitOr(x / 2, y / 2) + if x % 2 == 1 || y % 2 == 1 then 1 else 0
  }

  function ShiftLeft(x: nat, k: nat): nat {
    if k == 0 then x else 2 * ShiftLeft(x, k - 1)
  }

  // `(a << 18) | (b << 12) | (c << 6) | d`, in a word wide enough to lose nothing.
  function Word(a: Sextet, b: Sextet, c: Sextet, d: Sextet): nat {
    BitOr(BitOr(BitOr(ShiftLeft(a, 18), ShiftLeft(b, 12)), ShiftLeft(c, 6)), d)
  }

  lemma {:induction false} OrWithZero(x: nat)
    ensures BitOr(x, 0) == x
  {
    if x > 0 {
      OrWithZero(x / 2);
    }
  }

  // Numbers whose bits do not overlap are joined as they are added.
  lemma {:induction false} OrOfDisjoint(x: nat, y: nat, k: nat)
    requires y < ShiftLeft(1, k)
    ensures BitOr(ShiftLeft(x, k), y) == ShiftLeft(x, k) + y
  {
    if k == 0 {
      OrWithZero(x);
    } else {
      OrOfDisjoint(x, y / 2, k - 1);
    }
  }

  lemma {:induction false} ShiftOfShift(x: nat, j: nat, k: nat)
    ensures ShiftLeft(ShiftLeft(x, j), k) == ShiftLeft(x, j + k)
  {
    if k > 0 {
      ShiftOfShift(x, j, k - 1);
    }
  }

  lemma {:induction false} ShiftOfSum(x: nat, y: nat, k: nat)
    ensures ShiftLeft(x + y, k) == ShiftLeft(x, k) + ShiftLeft(y, k)
  {
    if k > 0 {
      ShiftOfSum(x, y, k - 1);
    }
  }

  lemma ShiftBySix(x: nat)
    ensures ShiftLeft(x, 6) == 64 * x
  {
    assert ShiftLeft(x, 1) == 2 * x;
    assert ShiftLeft(x, 2) == 4 * x;
    assert ShiftLeft(x, 3) == 8 * x;
    assert ShiftLeft(8 * x, 1) == 16 * x;
    assert ShiftLeft(8 * x, 2) == 32 * x;
    ShiftOfShift(x, 3, 3);
  }

  // Joining six more bits to a number.
  lemma JoinSix(x: nat, y: Sextet)
    ensures BitOr(ShiftLeft(x, 6), y) == 64 * x + y
  {
    ShiftBySix(x);
    ShiftBySix(1);
    OrOfDisjoint(x, y, 6);
  }

  // "Or" commutes with shifting both sides.
  lemma {:induction false} ShiftOfOr(x: nat, y: nat, k: nat)
    ensures BitOr(ShiftLeft(x, k), ShiftLeft(y, k)) == ShiftLeft(BitOr(x, y), k)
  {
    if k > 0 {
      ShiftOfOr(x, y, k - 1);
    }
  }

  // The word is the four sextets written one after the other.
  lemma WordIsSum(a: Sextet, b: Sextet, c: Sextet, d: Sextet)
    ensures Word(a, b, c, d) == a * 0x40000 + b * 0x1000 + c * 0x40 + d
  {
    ShiftOfShift(a, 6, 12);
    ShiftOfOr(ShiftLeft(a, 6), b, 12);
    JoinSix(a, b);
    var ab := 64 * a + b;
    ShiftOfShift(ab, 6, 6);
    ShiftOfOr(ShiftLeft(ab, 6), c, 6);
    JoinSix(ab, c);
    JoinSix(64 * ab + c, d);
  }

  // `(n >> 16) as u8`, `(n >> 8) as u8` and `n as u8`.
  function Byte2(n: nat): Byte { n / 0x10000 % 256 }
  function Byte1(n: nat): Byte { n / 0x100 % 256 }
  function Byte0(n: nat): Byte { n % 256 }

  lemma BytesOfWord(n: nat, x: Byte, y: Byte, z: Byte)
    requires n == x * 0x10000 + y * 0x100 + z
    ensures Byte2(n) == x && Byte1(n) == y && Byte0(n) == z
  {
    assert n / 0x100 == x * 0x100 + y;
    assert n / 0x10000 == x;
  }

  lemma Regrouped(a: Sextet, b: Sextet, c: Sextet, d: Sextet)
    ensures Word(a, b, c, d) == First(a, b) * 0x10000 + Second(b, c) * 0x100 + Third(c, d)
  {
    WordIsSum(a, b, c, d);
    assert b == 16 * (b / 16) + b % 16;
    assert c == 4 * (c / 4) + c % 4;
  }

  lemma WordParts(a: Sextet, b: Sextet, c: Sextet, d: Sextet)
    ensures Byte2(Word(a, b, c, d)) == First(a, b)
    ensures Byte1(Word(a, b, c, d)) == Second(b, c)
    ensures Byte0(Word(a, b, c, d)) == Third(c, d)
  {
    Regrouped(a, b, c, d);
    BytesOfWord(Word(a, b, c, d), First(a, b), Second(b, c), Third(c, d));
  }

  function NonPad(s: seq<Byte>): seq<Byte> {
    if s == [] then [] else (if s[0] == PAD then [] else [s[0]]) + NonPad(s[1..])
  }

  ghost function Decoded(s: seq<Byte>): Option<seq<Byte>> {
    var out := Bytes(Sextets(NonPad(s)));
    if out == [] then None else Some(out)
  }

  method FillTable() returns (table: array<Sextet>)
    ensures fresh(table) && table.Length == 256
    ensures forall c: Byte :: table[c] == SextetOf(c)
  {
    table := new Sextet[256](_ => 0);
    AlphabetSpelled(0);
    for i := 0 to |ALPHABET|
      invariant forall c: Byte :: table[c] == if SextetOf(c) < i then SextetOf(c) else 0
    {
      AlphabetSpelled(i);
      LettersRoundTrip(i, 0);
      table[ALPHABET[i] as int] := i;
      forall c: Byte
        ensures table[c] == if SextetOf(c) < i + 1 then SextetOf(c) else 0
      {
        LettersRoundTrip(SextetOf(c), c);
      }
    }
  }

  lemma {:induction false} NonPadOfAppend(s: seq<Byte>, c: Byte)
    ensures NonPad(s + [c]) == NonPad(s) + if c == PAD then [] else [c]
  {
    if s == [] {
      assert s + [c] == [c];
    } else {
      assert (s + [c])[1..] == s[1..] + [c];
      NonPadOfAppend(s[1..], c);
    }
  }

  method Filter(s: seq<Byte>) returns (t: seq<Byte>)
    ensures t == NonPad(s)
  {
    t := [];
    for i := 0 to |s|
      invariant t == NonPad(s[..i])
    {
      NonPadOfAppend(s[..i], s[i]);
      assert s[..i + 1] == s[..i] + [s[i]];
      if s[i] != PAD {
        t := t + [s[i]];
      }
    }
    assert s[..|s|] == s;
  }

  method PushThree(out: seq<Byte>, a: Sextet, b: Sextet, c: Sextet, d: Sextet) returns (r: seq<Byte>)
    ensures r == out + [First(a, b), Second(b, c), Third(c, d)]
  {
    var n := Word(a, b, c, d);
    WordParts(a, b, c, d);
    r := out + [Byte2(n)] + [Byte1(n)] + [Byte0(n)];
  }

  method PushTwo(out: seq<Byte>, a: Sextet, b: Sextet, c: Sextet) returns (r: seq<Byte>)
    ensures r == out + [First(a, b), Second(b, c)]
  {
    var n := Word(a, b, c, 0);
    WordParts(a, b, c, 0);
    r := out + [Byte2(n)] + [Byte1(n)];
  }

  method PushOne(out: seq<Byte>, a: Sextet, b: Sextet) returns (r: seq<Byte>)
    ensures r == out + [First(a, b)]
  {
    var n := Word(a, b, 0, 0);
    WordParts(a, b, 0, 0);
    r := out + [Byte2(n)];
  }

  function Three(v: seq<Sextet>, i: nat): seq<Byte>
    requires i + 3 < |v|
  {
    [First(v[i], v[i + 1]), Second(v[i + 1], v[i + 2]), Third(v[i + 2], v[i + 3])]
  }

  lemma BytesFrom(v: seq<Sextet>, i: nat)
    requires i <= |v|
    ensures i + 3 < |v| ==> Bytes(v[i..]) == Three(v, i) + Bytes(v[i + 4..])
    ensures i + 3 == |v| ==> Bytes(v[i..]) == [First(v[i], v[i + 1]), Second(v[i + 1], v[i + 2])]
    ensures i + 2 == |v| ==> Bytes(v[i..]) == [First(v[i], v[i + 1])]
    ensures i + 2 > |v| ==> Bytes(v[i..]) == []
  {
    if i + 3 < |v| {
      assert v[i..][4..] == v[i + 4..];
    }
  }

  lemma ThreeMore(v: seq<Sextet>, i: nat, out: seq<Byte>, all: seq<Byte>)
    requires i + 3 < |v| && all == out + Bytes(v[i..])
    ensures all == out + Three(v, i) + Bytes(v[i + 4..])
  {
    BytesFrom(v, i);
  }

  // The table maps the letters `input` to the groups `v`.
  ghost predicate LooksUp(table: array<Sextet>, input: seq<Byte>, v: seq<Sextet>)
    reads table
  {
    table.Length == 256 && |v| == |input| && forall j :: 0 <= j < |input| ==> table[input[j]] == v[j]
  }

  method DecodeQuads(table: array<Sextet>, input: seq<Byte>, ghost v: seq<Sextet>) returns (out: seq<Byte>, i: nat)
    requires LooksUp(table, input, v)
    ensures i <= |input| < i + 4 && Bytes(v) == out + Bytes(v[i..])
  {
    out, i := [], 0;
    assert v[0..] == v;
    while i + 3 < |input|
      invariant i <= |input| && Bytes(v) == out + Bytes(v[i..])
    {
      ThreeMore(v, i, out, Bytes(v));
      out := PushThree(out, table[input[i]], table[input[i + 1]], table[input[i + 2]], table[input[i + 3]]);
      i := i + 4;
    }
  }

  method DecodeRest(table: array<Sextet>, input: seq<Byte>, i: nat, out: seq<Byte>, ghost v: seq<Sextet>)
    returns (r: seq<Byte>)
    requires LooksUp(table, input, v) && i <= |input| < i + 4
    ensures r == out + Bytes(v[i..])
  {
    BytesFrom(v, i);
    if i + 2 < |input| {
      r := PushTwo(out, table[input[i]], table[input[i + 1]], table[input[i + 2]]);
    } else if i + 1 < |input| {
      r := PushOne(out, table[input[i]], table[input[i + 1]]);
    } else {
      r := out;
    }
  }

  method Base64Decode(s: seq<Byte>) returns (r: Option<seq<Byte>>)
    ensures r == Decoded(s)
  {
    var table := FillTable();
    var input := Filter(s);
    ghost var v := Sextets(input);
    assert LooksUp(table, input, v);
    var out, i := DecodeQuads(table, input, v);
    out := DecodeRest(table, input, i, out, v);
    r := if out == [] then None else Some(out);
  }

  // ---- What it decodes ----

  // n groups hold floor(3n/4) bytes.
  lemma {:induction false} BytesLength(v: seq<Sextet>)
    ensures |Bytes(v)| == 3 * |v| / 4
  {
    if |v| >= 4 {
      BytesLength(v[4..]);
    }
  }

  lemma FailsExactlyBelowTwoLetters(s: seq<Byte>)
    ensures Decoded(s) == None <==> |NonPad(s)| < 2
    ensures Decoded(s).Some? ==> |Decoded(s).value| == 3 * |NonPad(s)| / 4
  {
    BytesLength(Sextets(NonPad(s)));
  }

  lemma {:induction false} PaddingIsDropped(t: seq<Byte>, n: nat)
    requires PAD !in t
    ensures NonPad(t + seq(n, _ => PAD)) == t
    decreases |t| + n
  {
    var s := t + seq(n, _ => PAD);
    if t != [] {
      assert s[1..] == t[1..] + seq(n, _ => PAD);
      PaddingIsDropped(t[1..], n);
    } else if n > 0 {
      assert s[1..] == t + seq(n - 1, _ => PAD);
      PaddingIsDropped(t, n - 1);
    }
  }

  lemma BytesBack(x: Byte, y: Byte, z: Byte)
    ensures First(x / 4, x % 4 * 16 + y / 16) == x
    ensures Second(x % 4 * 16 + y / 16, y % 16 * 4 + z / 64) == y
    ensures Third(y % 16 * 4 + z / 64, z % 64) == z
  {
  }

  lemma {:induction false} BytesInvertGroups(b: seq<Byte>)
    ensures Bytes(Groups(b)) == b
  {
    if |b| == 1 {
      BytesBack(b[0], 0, 0);
    } else if |b| == 2 {
      BytesBack(b[0], b[1], 0);
    } else if |b| >= 3 {
      BytesInvertGroups(b[3..]);
      BytesBack(b[0], b[1], b[2]);
      assert Groups(b)[4..] == Groups(b[3..]);
      assert b == b[..3] + b[3..];
    }
  }

  // Decoding inverts the standard encoding, padded or not, of every non-empty string.
  lemma RoundTrip(b: seq<Byte>, padded: bool)
    requires b != []
    ensures Decoded(Encode(b, padded)) == Some(b)
  {
    var t := Letters(Groups(b));
    LettersAndBack(Groups(b));
    PaddingIsDropped(t, if padded then (3 - |b| % 3) % 3 else 0);
    assert t + seq(0, _ => PAD) == t + [] == t;
    BytesInvertGroups(b);
  }

  // ---- Which texts are encodings ----

  // Whole bytes, and no stray bits after the last.
  ghost predicate Whole(v: seq<Sextet>) {
    && |v| % 4 != 1
    && (|v| % 4 == 2 ==> v[|v| - 1] % 16 == 0)
    && (|v| % 4 == 3 ==> v[|v| - 1] % 4 == 0)
  }

  lemma GroupsBack(a: Sextet, b: Sextet, c: Sextet, d: Sextet)
    ensures First(a, b) / 4 == a
    ensures First(a, b) % 4 * 16 == b / 16 * 16
    ensures First(a, b) % 4 * 16 + Second(b, c) / 16 == b
    ensures Second(b, c) % 16 * 4 == c / 4 * 4
    ensures Second(b, c) % 16 * 4 + Third(c, d) / 64 == c
    ensures Third(c, d) % 64 == d
  {
  }

  lemma GroupsOfRegrouped(a: Sextet, b: Sextet, c: Sextet, d: Sextet, rest: seq<Byte>)
    ensures Groups([First(a, b), Second(b, c), Third(c, d)] + rest) == [a, b, c, d] + Groups(rest)
  {
    GroupsBack(a, b, c, d);
    assert ([First(a, b), Second(b, c), Third(c, d)] + rest)[3..] == rest;
  }

  lemma GroupsOfFour(v: seq<Sextet>)
    requires |v| >= 4
    ensures Groups(Bytes(v)) == [v[0], v[1], v[2], v[3]] + Groups(Bytes(v[4..]))
  {
    GroupsOfRegrouped(v[0], v[1], v[2], v[3], Bytes(v[4..]));
  }

  lemma WholeTail(v: seq<Sextet>)
    requires |v| >= 4
    ensures Whole(v) <==> Whole(v[4..])
  {
  }

  lemma MultiplesOf(b: Sextet)
    ensures b / 16 * 16 == b <==> b % 16 == 0
    ensures b / 4 * 4 == b <==> b % 4 == 0
  {
  }

  lemma {:induction false} GroupsInvertBytes(v: seq<Sextet>)
    ensures Groups(Bytes(v)) == v <==> Whole(v)
  {
    if |v| == 2 {
      GroupsBack(v[0], v[1], 0, 0);
      MultiplesOf(v[1]);
      assert Groups(Bytes(v)) == [v[0], v[1] / 16 * 16];
    } else if |v| == 3 {
      GroupsBack(v[0], v[1], v[2], 0);
      MultiplesOf(v[2]);
      assert Groups(Bytes(v)) == [v[0], v[1], v[2] / 4 * 4];
    } else if |v| >= 4 {
      GroupsInvertBytes(v[4..]);
      GroupsOfFour(v);
      WholeTail(v);
      assert v == [v[0], v[1], v[2], v[3]] + v[4..];
    }
  }

  // A text without padding is the encoding of what it decodes to exactly when it consists
  // of the alphabet's letters and its bits make whole bytes.
  lemma EncodingsAreCanonical(t: seq<Byte>)
    requires PAD !in t && |t| >= 2
    ensures Decoded(t).Some?
    ensures Encode(Decoded(t).value, false) == t <==> (forall c :: c in t ==> InAlphabet(c)) && Whole(Sextets(t))
  {
    var v := Sextets(t);
    PaddingIsDropped(t, 0);
    assert t + seq(0, _ => PAD) == t;
    BytesLength(v);
    GroupsInvertBytes(v);
    var back := Groups(Bytes(v));
    assert Encode(Bytes(v), false) == Letters(back);
    LettersAndBack(back);
    if back == v {
      SpelledBack(t);
    }
  }

  lemma SpelledBack(t: seq<Byte>)
    ensures Letters(Sextets(t)) == t <==> forall c :: c in t ==> InAlphabet(c)
  {
    forall i | 0 <= i < |t|
      ensures Letters(Sextets(t))[i] == t[i] <==> InAlphabet(t[i])
    {
      LettersRoundTrip(0, t[i]);
    }
    if forall c :: c in t ==> InAlphabet(c) {
      assert Letters(Sextets(t)) == t;
    } else {
      var c :| c in t && !InAlphabet(c);
      var i :| 0 <= i < |t| && t[i] == c;
      assert Letters(Sextets(t))[i] != t[i];
    }
  }
}
