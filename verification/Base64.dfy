/**
  The base64 decoder of the image demo, against the encoding of section 4 of RFC 4648.
*/
module Base64 {
  import opened Wrappers

  newtype byte = x: int | 0 <= x < 256

  /** A character of a C string of the demo: ASCII, and not the terminator. */
  type code = c: int | 0 < c < 128 witness 65

  const PAD: code := '=' as int

  /** The base 64 alphabet, table 1 of RFC 4648. */
  function Symbol(v: int): code
    requires 0 <= v < 64
  {
    if v < 26 then 'A' as int + v
    else if v < 52 then 'a' as int + v - 26
    else if v < 62 then '0' as int + v - 52
    else if v == 62 then '+' as int
    else '/' as int
  }

  predicate InAlphabet(c: code) {
    || 'A' as int <= c <= 'Z' as int
    || 'a' as int <= c <= 'z' as int
    || '0' as int <= c <= '9' as int
    || c == '+' as int || c == '/' as int
  }

  function First(a: byte): code { Symbol(a as int / 4) }
  function Second(a: byte, b: byte): code { Symbol(a as int % 4 * 16 + b as int / 16) }
  function Third(b: byte, c: byte): code { Symbol(b as int % 16 * 4 + c as int / 64) }
  function Fourth(c: byte): code { Symbol(c as int % 64) }

  /** The encoding: three bytes to four characters, the last one or two bytes padded. */
  function Encode(s: seq<byte>): seq<code> {
    if |s| == 0 then []
    else if |s| == 1 then [First(s[0]), Second(s[0], 0), PAD, PAD]
    else if |s| == 2 then [First(s[0]), Second(s[0], s[1]), Third(s[1], 0), PAD]
    else [First(s[0]), Second(s[0], s[1]), Third(s[1], s[2]), Fourth(s[2])] + Encode(s[3..])
  }

  /** The entry of the decoder's table for a character; zero for those outside the alphabet. */
  function Value(c: int): (v: int)
    ensures 0 <= v < 64
  {
    if 'A' as int <= c <= 'Z' as int then c - 'A' as int
    else if 'a' as int <= c <= 'z' as int then c - 'a' as int + 26
    else if '0' as int <= c <= '9' as int then c - '0' as int + 52
    else if c == '+' as int then 62
    else if c == '/' as int then 63
    else 0
  }

  lemma ValueInvertsSymbol(v: int)
    requires 0 <= v < 64
    ensures Value(Symbol(v)) == v && InAlphabet(Symbol(v)) && Symbol(v) != PAD
  {
  }

  lemma SymbolInvertsValue(c: code)
    ensures Symbol(Value(c)) == c <==> InAlphabet(c)
  {
  }

  const UPPER := "ABCDEFGHIJKLMNOPQRSTUVWXYZ"
  const LOWER := "abcdefghijklmnopqrstuvwxyz"
  const DIGITS := "0123456789"

  /** The alphabet as RFC 4648 lists it: the capitals, the small letters, the digits, '+' and '/'. */
  lemma SymbolIsLetter(v: int)
    requires 0 <= v < 64
    ensures var alphabet := UPPER + LOWER + DIGITS + "+/"; |alphabet| == 64 && Symbol(v) == alphabet[v] as int
  {
    if v < 26 {
      assert UPPER[v] == 'A' + v as char;
    } else if v < 52 {
      assert LOWER[v - 26] == 'a' + (v - 26) as char;
    } else if v < 62 {
      assert DIGITS[v - 52] == '0' + (v - 52) as char;
    }
  }

  /** Four characters are, most significant first, the same 24 bits as the three bytes they encode. */
  lemma BitsStay(a: byte, b: byte, c: byte)
    ensures 0x40000 * Value(First(a)) + 0x1000 * Value(Second(a, b)) + 0x40 * Value(Third(b, c)) + Value(Fourth(c))
         == 0x10000 * a as int + 0x100 * b as int + c as int
  {
    ValueInvertsSymbol(a as int / 4);
    ValueInvertsSymbol(a as int % 4 * 16 + b as int / 16);
    ValueInvertsSymbol(b as int % 16 * 4 + c as int / 64);
    ValueInvertsSymbol(c as int % 64);
  }

  /** The test vectors "f", "fo" and "foo" of section 10 of RFC 4648. */
  lemma TestVectors()
    ensures Encode([0x66]) == ['Z' as int, 'g' as int, PAD, PAD]
    ensures Encode([0x66, 0x6f]) == ['Z' as int, 'm' as int, '8' as int, PAD]
    ensures Encode([0x66, 0x6f, 0x6f]) == ['Z' as int, 'm' as int, '9' as int, 'v' as int]
  {
    assert [0x66 as byte, 0x6f, 0x6f][3..] == [];
  }

  /** Four six-bit values joined into one block of 24 bits. */
  function Block(a: int, b: int, c: int, d: int): int {
    0x40000 * a + 0x1000 * b + 0x40 * c + d
  }

  function Byte(n: int): byte {
    (n % 256) as byte
  }

  /** The decoder joins and splits the block by shifts; on values of six bits these are sums and quotients. */
  lemma ShiftsAreSums(a: bv32, b: bv32, c: bv32, d: bv32)
    requires a < 64 && b < 64 && c < 64 && d < 64
    ensures ((a << 18) | (b << 12) | (c << 6) | d) == 0x40000 * a + 0x1000 * b + 0x40 * c + d
  {
  }

  lemma ShiftsAreQuotients(n: bv32)
    ensures (n >> 16) & 0xff == (n / 0x10000) % 0x100
    ensures (n >> 8) & 0xff == (n / 0x100) % 0x100
    ensures n & 0xff == n % 0x100
  {
  }

  /** The three bytes of a block. */
  function Split(n: int): seq<byte> {
    [Byte(n / 0x10000), Byte(n / 0x100), Byte(n)]
  }

  /** The three bytes of a group of four characters. */
  function Group(p: code, q: code, r: code, t: code): seq<byte> {
    Split(Block(Value(p), Value(q), Value(r), Value(t)))
  }

  /** The bytes of all groups from number `k` on. */
  function Groups(s: seq<code>, k: nat): (g: seq<byte>)
    requires |s| % 4 == 0 && 4 * k <= |s|
    ensures |g| == 3 * (|s| / 4 - k)
    decreases |s| - 4 * k
  {
    if 4 * k == |s| then []
    else Group(s[4 * k], s[4 * k + 1], s[4 * k + 2], s[4 * k + 3]) + Groups(s, k + 1)
  }

  /** How many padding characters the decoder takes back. */
  function Padding(s: seq<code>): (p: nat)
    requires |s| >= 2
    ensures p <= 2
  {
    if s[|s| - 1] == PAD && s[|s| - 2] == PAD then 2 else if s[|s| - 1] == PAD then 1 else 0
  }

  function Decoded(s: seq<code>): seq<byte>
    requires |s| >= 2 && |s| % 4 == 0
  {
    Groups(s, 0)[..|Groups(s, 0)| - Padding(s)]
  }

  predicate Upper(c: int) {
    'A' as int <= c <= 'Z' as int
  }

  predicate Lower(c: int) {
    'a' as int <= c <= 'z' as int
  }

  /** The entry of a table that is filled only in part. */
  function ValueIf(filled: bool, c: int): int {
    if filled then Value(c) else 0
  }

  predicate IsTable(table: seq<byte>) {
    |table| == 256 && forall c: nat :: c < 128 ==> table[c] as int == Value(c)
  }

  /** The table, filled by one loop for each run of the alphabet. */
  method FillTable() returns (table: array<byte>)
    ensures fresh(table) && table.Length == 256
    ensures IsTable(table[..])
  {
    table := new byte[256](_ => 0);
    for i := 'A' as int to 'Z' as int + 1
      invariant forall c: nat :: c < 128 ==> table[c] as int == ValueIf('A' as int <= c < i, c)
    {
      table[i] := (i - 'A' as int) as byte;
    }
    for i := 'a' as int to 'z' as int + 1
      invariant forall c: nat :: c < 128 ==> table[c] as int == ValueIf(Upper(c) || 'a' as int <= c < i, c)
    {
      table[i] := (i - 'a' as int + 26) as byte;
    }
    for i := '0' as int to '9' as int + 1
      invariant forall c: nat :: c < 128 ==> table[c] as int == ValueIf(Upper(c) || Lower(c) || '0' as int <= c < i, c)
    {
      table[i] := (i - '0' as int + 52) as byte;
    }
    table['+' as int] := 62;
    table['/' as int] := 63;
  }

  /** One turn of the decoder's loop: three bytes are written at `widx`, the others stay. */
  method DecodeGroup(table: array<byte>, p: code, q: code, r: code, t: code, out: array<byte>, widx: nat)
    requires IsTable(table[..]) && table != out && widx + 3 <= out.Length
    modifies out
    ensures out[..widx + 3] == old(out[..widx]) + Group(p, q, r, t)
  {
    var n := Block(table[p] as int, table[q] as int, table[r] as int, table[t] as int);
    assert table[..][p] == table[p] && table[..][q] == table[q] && table[..][r] == table[r] && table[..][t] == table[t];
    out[widx] := Byte(n / 0x10000);
    out[widx + 1] := Byte(n / 0x100);
    out[widx + 2] := Byte(n);
  }

  lemma Regroup(done: seq<byte>, g: seq<byte>, rest: seq<byte>)
    ensures (done + g) + rest == done + (g + rest)
  {
  }

  /** The bytes of the groups done and of those to do are the bytes of all groups. */
  predicate Progress(cstr: seq<code>, done: seq<byte>, k: nat)
    requires |cstr| % 4 == 0 && 4 * k <= |cstr|
  {
    done + Groups(cstr, k) == Groups(cstr, 0)
  }

  lemma NextGroup(cstr: seq<code>, done: seq<byte>, k: nat)
    requires |cstr| % 4 == 0 && 4 * k < |cstr| && Progress(cstr, done, k)
    ensures Progress(cstr, done + Group(cstr[4 * k], cstr[4 * k + 1], cstr[4 * k + 2], cstr[4 * k + 3]), k + 1)
  {
    Regroup(done, Group(cstr[4 * k], cstr[4 * k + 1], cstr[4 * k + 2], cstr[4 * k + 3]), Groups(cstr, k + 1));
  }

  lemma AllGroups(cstr: seq<code>, done: seq<byte>, k: nat)
    requires |cstr| % 4 == 0 && 4 * k == |cstr| && Progress(cstr, done, k)
    ensures done == Groups(cstr, 0)
  {
  }

  lemma NoGroup(cstr: seq<code>)
    requires |cstr| % 4 == 0
    ensures Progress(cstr, [], 0)
  {
  }

  /** The decoder's loop: every index stays inside the string and inside the resized vector. */
  method DecodeGroups(table: array<byte>, cstr: seq<code>, out: array<byte>)
    requires IsTable(table[..]) && table != out
    requires |cstr| % 4 == 0 && out.Length == |cstr| * 3 / 4
    modifies out
    ensures out[..] == Groups(cstr, 0)
  {
    var ridx, widx := 0, 0;
    ghost var k := 0;
    NoGroup(cstr);
    while ridx < |cstr|
      invariant ridx == 4 * k && widx == 3 * k && ridx <= |cstr|
      invariant Progress(cstr, out[..widx], k)
    {
      NextGroup(cstr, out[..widx], k);
      DecodeGroup(table, cstr[ridx], cstr[ridx + 1], cstr[ridx + 2], cstr[ridx + 3], out, widx);
      ridx, widx, k := ridx + 4, widx + 3, k + 1;
    }
    AllGroups(cstr, out[..widx], k);
    assert out[..widx] == out[..];
  }

  /** Takes back the bytes of the padding from the end of the vector. */
  method PopPadding(cstr: seq<code>, bytes: seq<byte>) returns (result: seq<byte>)
    requires |cstr| >= 2 && |bytes| >= 2
    ensures result == bytes[..|bytes| - Padding(cstr)]
  {
    var len := |cstr|;
    result := bytes;
    if cstr[len - 1] == PAD && cstr[len - 2] == PAD {
      result := result[..|result| - 1];
      result := result[..|result| - 1];
    } else if cstr[len - 1] == PAD {
      result := result[..|result| - 1];
    }
  }

  /** The loop takes a turn at every fourth character. */
  predicate IsTurn(len: nat, ridx: nat) {
    ridx < len && ridx % 4 == 0
  }

  /** The accesses of the loop's turn at `ridx`: four characters, of which the string has `len` and its
      terminator, and three bytes of the resized vector. */
  predicate TurnIsInside(len: nat, ridx: nat) {
    ridx + 3 <= len && ridx / 4 * 3 + 2 < len * 3 / 4
  }

  /** All turns stay inside exactly for lengths that are a multiple of four. */
  lemma TurnsAreInsideIff(len: nat)
    requires len >= 2
    ensures (forall ridx: nat :: IsTurn(len, ridx) ==> TurnIsInside(len, ridx)) <==> len % 4 == 0
  {
    var last := (len - 1) / 4 * 4;
    if len % 4 != 0 {
      assert IsTurn(len, last) && !TurnIsInside(len, last);
    } else {
      forall ridx: nat | IsTurn(len, ridx) ensures TurnIsInside(len, ridx) {
        assert ridx / 4 * 3 + 3 <= len / 4 * 3 == len * 3 / 4;
      }
    }
  }

  /** `decode_base64`; fewer than two characters leave the vector as it is.  There is no result when some
      turn of the loop leaves the string or the vector: the original has no defined one then. */
  method DecodeBase64(cstr: seq<code>, before: seq<byte>) returns (result: Option<seq<byte>>)
    ensures |cstr| < 2 ==> result == Some(before)
    ensures |cstr| >= 2 ==> (result.None? <==> exists ridx :: IsTurn(|cstr|, ridx) && !TurnIsInside(|cstr|, ridx))
    ensures |cstr| >= 2 && result.Some? ==> |cstr| % 4 == 0 && result.value == Decoded(cstr)
  {
    if |cstr| < 2 {
      return Some(before);
    }
    TurnsAreInsideIff(|cstr|);
    if |cstr| % 4 != 0 {
      return None;
    }
    var out := new byte[|cstr| * 3 / 4];
    var table := FillTable();
    DecodeGroups(table, cstr, out);
    var bytes := PopPadding(cstr, out[..]);
    result := Some(bytes);
  }

  // ----- round trips -----

  lemma SplitInvertsJoin(a: int, b: int, c: int)
    requires 0 <= a < 256 && 0 <= b < 256 && 0 <= c < 256
    ensures Block(a / 4, a % 4 * 16 + b / 16, b % 16 * 4 + c / 64, c % 64) == 0x10000 * a + 0x100 * b + c
  {
  }

  lemma SplitSum(a: byte, b: byte, c: byte)
    ensures Split(0x10000 * a as int + 0x100 * b as int + c as int) == [a, b, c]
  {
    var high, middle := a as int, 0x100 * a as int + b as int;
    var n := 0x100 * middle + c as int;
    LowByte(0, a);
    LowByte(high, b);
    LowByte(middle, c);
    assert n / 0x10000 == high && n / 0x100 == middle;
  }

  lemma LowByte(high: int, low: byte)
    ensures Byte(0x100 * high + low as int) == low
  {
  }

  /** Joining the four values of three bytes and splitting the block again gives the bytes. */
  lemma GroupInvertsSymbols(a: byte, b: byte, c: byte)
    ensures Group(First(a), Second(a, b), Third(b, c), Fourth(c)) == [a, b, c]
  {
    SymbolsHaveValues(a, b, c);
    SplitInvertsValues(a, b, c);
  }

  lemma SplitInvertsValues(a: byte, b: byte, c: byte)
    ensures Split(Block(a as int / 4, a as int % 4 * 16 + b as int / 16, b as int % 16 * 4 + c as int / 64, c as int % 64))
      == [a, b, c]
  {
    SplitInvertsJoin(a as int, b as int, c as int);
    SplitSum(a, b, c);
  }

  lemma SymbolsHaveValues(a: byte, b: byte, c: byte)
    ensures Value(First(a)) == a as int / 4 && Value(Second(a, b)) == a as int % 4 * 16 + b as int / 16
    ensures Value(Third(b, c)) == b as int % 16 * 4 + c as int / 64 && Value(Fourth(c)) == c as int % 64
    ensures Third(b, c) != PAD && Fourth(c) != PAD
  {
    ValueInvertsSymbol(a as int / 4);
    ValueInvertsSymbol(a as int % 4 * 16 + b as int / 16);
    ValueInvertsSymbol(b as int % 16 * 4 + c as int / 64);
    ValueInvertsSymbol(c as int % 64);
  }

  /** Padding reads as zero, so a padded group starts with the bytes that were encoded. */
  lemma PaddedGroup(a: byte, b: byte)
    ensures Group(First(a), Second(a, b), Third(b, 0), PAD) == [a, b, 0]
    ensures Group(First(a), Second(a, 0), PAD, PAD) == [a, 0, 0]
  {
    GroupInvertsSymbols(a, b, 0);
    GroupInvertsSymbols(a, 0, 0);
    PadIsZero();
  }

  lemma PadIsZero()
    ensures Value(PAD) == 0 == Value(Fourth(0)) == Value(Third(0, 0))
  {
  }

  /** The groups after the first are those of the rest of the string. */
  lemma {:induction false} GroupsOfRest(s: seq<code>, head: seq<code>, k: nat)
    requires |s| % 4 == 0 && 4 * k <= |s| && |head| == 4
    ensures Groups(head + s, k + 1) == Groups(s, k)
    decreases |s| - 4 * k
  {
    if 4 * k < |s| {
      var all := head + s;
      assert all[4 * k + 4] == s[4 * k] && all[4 * k + 5] == s[4 * k + 1];
      assert all[4 * k + 6] == s[4 * k + 2] && all[4 * k + 7] == s[4 * k + 3];
      GroupsOfRest(s, head, k + 1);
    }
  }

  /** The bytes of a string are those of its first group and those of the rest. */
  lemma FirstGroup(head: seq<code>, s: seq<code>)
    requires |s| % 4 == 0 && |head| == 4
    ensures Groups(head + s, 0) == Group(head[0], head[1], head[2], head[3]) + Groups(s, 0)
  {
    GroupsOfRest(s, head, 0);
  }

  /** The end of a string longer than two characters is the end of the rest. */
  lemma PaddingOfRest(head: seq<code>, s: seq<code>)
    requires |s| >= 2
    ensures Padding(head + s) == Padding(s)
  {
  }

  lemma DropTail(head: seq<byte>, s: seq<byte>, p: nat)
    requires p <= |s|
    ensures (head + s)[..|head + s| - p] == head + s[..|s| - p]
  {
  }

  /** Decoding a first group in front of others. */
  lemma DecodedOfRest(head: seq<code>, s: seq<code>)
    requires |head| == 4 && |s| >= 2 && |s| % 4 == 0
    ensures Decoded(head + s) == Group(head[0], head[1], head[2], head[3]) + Decoded(s)
  {
    FirstGroup(head, s);
    PaddingOfRest(head, s);
    DropTail(Group(head[0], head[1], head[2], head[3]), Groups(s, 0), Padding(s));
  }

  /** Decoding a single group. */
  lemma DecodedOfOne(s: seq<code>)
    requires |s| == 4
    ensures Decoded(s) == Group(s[0], s[1], s[2], s[3])[..3 - Padding(s)]
  {
    FirstGroup(s, []);
    assert s + [] == s;
  }

  lemma DecodeInvertsEncodeShort(s: seq<byte>)
    requires 0 < |s| <= 3
    ensures |Encode(s)| == 4 && Decoded(Encode(s)) == s
  {
    DecodedOfOne(Encode(s));
    if |s| == 1 {
      PaddedGroup(s[0], 0);
    } else if |s| == 2 {
      PaddedGroup(s[0], s[1]);
      SymbolsHaveValues(s[0], s[1], 0);
    } else {
      GroupInvertsSymbols(s[0], s[1], s[2]);
      SymbolsHaveValues(s[0], s[1], s[2]);
    }
  }

  /** Decoding the encoding of any non-empty sequence of bytes gives the sequence. */
  lemma {:induction false} DecodeInvertsEncode(s: seq<byte>)
    requires |s| > 0
    ensures |Encode(s)| >= 2 && |Encode(s)| % 4 == 0 && Decoded(Encode(s)) == s
    decreases |s|
  {
    if |s| <= 3 {
      DecodeInvertsEncodeShort(s);
    } else {
      var rest := s[3..];
      DecodeInvertsEncode(rest);
      GroupInvertsSymbols(s[0], s[1], s[2]);
      DecodedOfRest([First(s[0]), Second(s[0], s[1]), Third(s[1], s[2]), Fourth(s[2])], Encode(rest));
      assert s == [s[0], s[1], s[2]] + rest;
    }
  }

  /** A string that section 4 of RFC 4648 can produce: letters of the alphabet, padded only at the end,
      the unused bits of the last letter zero. */
  predicate Canonical(s: seq<code>)
    requires |s| % 4 == 0 && |s| >= 4
  {
    && InAlphabet(s[0]) && InAlphabet(s[1])
    && if |s| > 4 then InAlphabet(s[2]) && InAlphabet(s[3]) && Canonical(s[4..])
       else if s[3] != PAD then InAlphabet(s[2]) && InAlphabet(s[3])
       else if s[2] != PAD then InAlphabet(s[2]) && Value(s[2]) % 4 == 0
       else Value(s[1]) % 16 == 0
  }

  /** Three bytes told by the pieces that the four values are made of. */
  lemma JoinedBytes(p: int, u: int, v: int, w: int, x: int, t: int)
    requires 0 <= p < 64 && 0 <= u < 4 && 0 <= v < 16 && 0 <= w < 16 && 0 <= x < 4 && 0 <= t < 64
    ensures Split(Block(p, 16 * u + v, 4 * w + x, t)) == [Byte(4 * p + u), Byte(16 * v + w), Byte(64 * x + t)]
  {
    SplitSum((4 * p + u) as byte, (16 * v + w) as byte, (64 * x + t) as byte);
  }

  lemma SymbolsOfPieces(p: int, u: int, v: int, w: int, x: int, t: int)
    requires 0 <= p < 64 && 0 <= u < 4 && 0 <= v < 16 && 0 <= w < 16 && 0 <= x < 4 && 0 <= t < 64
    ensures First(Byte(4 * p + u)) == Symbol(p)
    ensures Second(Byte(4 * p + u), Byte(16 * v + w)) == Symbol(16 * u + v)
    ensures Second(Byte(4 * p + u), 0) == Symbol(16 * u)
    ensures Third(Byte(16 * v + w), Byte(64 * x + t)) == Symbol(4 * w + x)
    ensures Third(Byte(16 * v + w), 0) == Symbol(4 * w)
    ensures Fourth(Byte(64 * x + t)) == Symbol(t)
  {
    SplitPiece(4, p, u);
    SplitPiece(16, v, w);
    SplitPiece(64, x, t);
  }

  lemma SplitPiece(base: int, high: int, low: int)
    requires base == 4 || base == 16 || base == 64
    requires 0 <= high && 0 <= low < base && base * high + low < 256
    ensures Byte(base * high + low) as int / base == high && Byte(base * high + low) as int % base == low
  {
  }

  /** The symbols that three bytes are encoded with, alone or with fewer bytes after the padding. */
  predicate HasSymbols(g: seq<byte>, p: int, q: int, r: int, t: int)
    requires |g| == 3
    requires 0 <= p < 64 && 0 <= q < 64 && 0 <= r < 64 && 0 <= t < 64
  {
    && First(g[0]) == Symbol(p) && Second(g[0], g[1]) == Symbol(q)
    && Third(g[1], g[2]) == Symbol(r) && Fourth(g[2]) == Symbol(t)
    && Second(g[0], 0) == Symbol(q / 16 * 16) && Third(g[1], 0) == Symbol(r / 4 * 4)
  }

  /** The symbols of the bytes of a block are those of the values it was joined from. */
  lemma BlockHasSymbols(p: int, q: int, r: int, t: int)
    requires 0 <= p < 64 && 0 <= q < 64 && 0 <= r < 64 && 0 <= t < 64
    ensures HasSymbols(Split(Block(p, q, r, t)), p, q, r, t)
  {
    var u, v, w, x := q / 16, q % 16, r / 4, r % 4;
    JoinedBytes(p, u, v, w, x, t);
    SymbolsOfPieces(p, u, v, w, x, t);
  }

  lemma GroupHasSymbols(p: code, q: code, r: code, t: code)
    ensures HasSymbols(Group(p, q, r, t), Value(p), Value(q), Value(r), Value(t))
  {
    BlockHasSymbols(Value(p), Value(q), Value(r), Value(t));
  }

  lemma SymbolIsInjective(v: int, c: code)
    requires 0 <= v < 64
    ensures Symbol(v) == c <==> InAlphabet(c) && Value(c) == v
  {
    ValueInvertsSymbol(v);
    SymbolInvertsValue(c);
  }

  lemma SameFour(a: seq<code>, b: seq<code>)
    requires |a| == 4 && |b| == 4
    ensures a == b <==> a[0] == b[0] && a[1] == b[1] && a[2] == b[2] && a[3] == b[3]
  {
  }

  lemma EncodeShort(g: seq<byte>)
    requires |g| == 3
    ensures Encode(g) == [First(g[0]), Second(g[0], g[1]), Third(g[1], g[2]), Fourth(g[2])]
    ensures Encode(g[..2]) == [First(g[0]), Second(g[0], g[1]), Third(g[1], 0), PAD]
    ensures Encode(g[..1]) == [First(g[0]), Second(g[0], 0), PAD, PAD]
  {
    assert g[3..] == [] && |g[..2]| == 2 && |g[..1]| == 1;
  }

  lemma UnpaddedIff(s: seq<code>)
    requires |s| == 4 && s[3] != PAD
    ensures Encode(Decoded(s)) == s <==> Canonical(s)
  {
    var g := Group(s[0], s[1], s[2], s[3]);
    DecodedOfOne(s);
    EncodeShort(g);
    assert Decoded(s) == g;
    GroupHasSymbols(s[0], s[1], s[2], s[3]);
    SameFour(Encode(g), s);
    forall i | 0 <= i < 4 ensures Symbol(Value(s[i])) == s[i] <==> InAlphabet(s[i]) {
      SymbolInvertsValue(s[i]);
    }
  }

  lemma PaddedIff(s: seq<code>)
    requires |s| == 4 && s[3] == PAD
    ensures Encode(Decoded(s)) == s <==> Canonical(s)
  {
    var g := Group(s[0], s[1], s[2], s[3]);
    DecodedOfOne(s);
    EncodeShort(g);
    GroupHasSymbols(s[0], s[1], s[2], s[3]);
    SymbolInvertsValue(s[0]);
    if s[2] == PAD {
      assert Decoded(s) == g[..1];
      SameFour(Encode(g[..1]), s);
      SymbolIsInjective(Value(s[1]) / 16 * 16, s[1]);
    } else {
      assert Decoded(s) == g[..2];
      SameFour(Encode(g[..2]), s);
      SymbolInvertsValue(s[1]);
      SymbolIsInjective(Value(s[2]) / 4 * 4, s[2]);
    }
  }

  /**
    Encoding what was decoded gives the string back exactly for the strings an encoder can produce;
    the decoder takes every other string too, and reads what is outside the alphabet as zero.
  */
  lemma {:induction false} EncodeInvertsDecodeIff(s: seq<code>)
    requires |s| % 4 == 0 && |s| >= 4
    ensures Encode(Decoded(s)) == s <==> Canonical(s)
    decreases |s|
  {
    if |s| == 4 {
      if s[3] == PAD { PaddedIff(s); } else { UnpaddedIff(s); }
    } else {
      var head, rest := s[..4], s[4..];
      assert s == head + rest;
      EncodeInvertsDecodeIff(rest);
      DecodedOfRest(head, rest);
      GroupHasSymbols(head[0], head[1], head[2], head[3]);
      var g := Group(head[0], head[1], head[2], head[3]);
      EncodeOfRest(g, Decoded(rest));
      var symbols := [First(g[0]), Second(g[0], g[1]), Third(g[1], g[2]), Fourth(g[2])];
      SameHalves(symbols, Encode(Decoded(rest)), head, rest);
      SymbolInvertsValue(head[0]);
      SymbolInvertsValue(head[1]);
      SymbolInvertsValue(head[2]);
      SymbolInvertsValue(head[3]);
    }
  }

  lemma EncodeOfRest(g: seq<byte>, rest: seq<byte>)
    requires |g| == 3
    ensures Encode(g + rest) == [First(g[0]), Second(g[0], g[1]), Third(g[1], g[2]), Fourth(g[2])] + Encode(rest)
  {
    assert (g + rest)[3..] == rest;
  }

  lemma SameHalves(a: seq<code>, b: seq<code>, c: seq<code>, d: seq<code>)
    requires |a| == |c|
    ensures a + b == c + d <==> a == c && b == d
  {
    if a + b == c + d {
      assert a == (a + b)[..|a|] && c == (c + d)[..|c|];
      assert b == (a + b)[|a|..] && d == (c + d)[|c|..];
    }
  }
}
