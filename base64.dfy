/**
 * The bridge's binary-to-text codec, `kui_b64_encode` in kui/src/kui.c.
 *
 * Two encoders live here. `AsWritten` (and the loop `EncodeAsWritten`) is the
 * routine as the source has it: its padding tests can never fire, so a short
 * final group is filled with 'A' rather than '='. `Encode` is the standard
 * encoding of section 4 of RFC 4648 that the routine evidently intends, and
 * `Decode` is its inverse. The callers of the routine in the rest of the model
 * use `AsWritten`, as the source does.
 */
module Base64 {
  import opened Wrappers

  /** An octet of the input buffer (`unsigned char`). */
  type Byte = x: int | 0 <= x < 256

  /**
   * The 64-character alphabet of section 4 of RFC 4648 (`TBL`), indexed by
   * sextet value. It is one string; it is written as four 16-character pieces
   * only so that the verifier can index it.
   */
  const Table: string := "ABCDEFGHIJKLMNOP" + "QRSTUVWXYZabcdef" + "ghijklmnopqrstuv" + "wxyz0123456789+/"

  const Pad: char := '='

  /**
   * `(a << 16) | (b << 8) | c` in a 32-bit `unsigned`. The three fields do
   * not overlap, so the bitwise or is the sum, and no bit is lost.
   */
  function Triple(a: Byte, b: Byte, c: Byte): (t: nat)
    ensures t < 0x100_0000
  {
    a * 0x1_0000 + b * 0x100 + c
  }

  /** `(t >> shift) & 0x3F`: six bits of the group, as a table index. */
  function Sextet(t: nat, shift: nat): (v: nat)
    requires shift == 0 || shift == 6 || shift == 12 || shift == 18
    ensures v < 64
  {
    (if shift == 18 then t / 0x4_0000
     else if shift == 12 then t / 0x1000
     else if shift == 6 then t / 0x40
     else t) % 64
  }

  /** `TBL[(t >> shift) & 0x3F]`; `TableAt` shows the table holds `CharOf`. */
  function Digit(t: nat, shift: nat): char
    requires shift == 0 || shift == 6 || shift == 12 || shift == 18
  {
    CharOf(Sextet(t, shift))
  }

  /** The four characters of a full three-octet group. */
  function Quad(t: nat): string
  {
    [Digit(t, 18), Digit(t, 12), Digit(t, 6), Digit(t, 0)]
  }

  /** The table's character for a sextet, by ranges of the alphabet. */
  function CharOf(v: nat): char
    requires v < 64
  {
    if v < 26 then ('A' as int + v) as char
    else if v < 52 then ('a' as int + (v - 26)) as char
    else if v < 62 then ('0' as int + (v - 52)) as char
    else if v == 62 then '+' else '/'
  }

  lemma TableAt(v: nat)
    requires v < 64
    ensures Table[v] == CharOf(v)
  {
  }

  /** The value of a character of the alphabet; None for any other character. */
  function ValueOf(c: char): (r: Option<nat>)
    ensures r.Some? ==> r.value < 64
  {
    if 'A' <= c <= 'Z' then Some(c as int - 'A' as int)
    else if 'a' <= c <= 'z' then Some(c as int - 'a' as int + 26)
    else if '0' <= c <= '9' then Some(c as int - '0' as int + 52)
    else if c == '+' then Some(62)
    else if c == '/' then Some(63)
    else None
  }

  /** `ValueOf` inverts the table, and no table character is the padding. */
  lemma ValueOfTable(v: nat)
    requires v < 64
    ensures ValueOf(CharOf(v)) == Some(v)
    ensures ValueOf(Table[v]) == Some(v)
    ensures CharOf(v) != Pad
  {
    TableAt(v);
  }

  /** Packs four sextets back into a 24-bit group. */
  function Join(v0: nat, v1: nat, v2: nat, v3: nat): (u: nat)
    requires v0 < 64 && v1 < 64 && v2 < 64 && v3 < 64
    ensures u < 0x100_0000
  {
    v0 * 0x4_0000 + v1 * 0x1000 + v2 * 0x40 + v3
  }

  lemma JoinSextets(t: nat)
    requires t < 0x100_0000
    ensures Join(Sextet(t, 18), Sextet(t, 12), Sextet(t, 6), Sextet(t, 0)) == t
  {
    var q3 := t / 0x40;
    var q2 := q3 / 0x40;
    var q1 := q2 / 0x40;
    assert t / 0x1000 == q2;
    assert t / 0x4_0000 == q1;
  }

  lemma SplitTriple(a: Byte, b: Byte, c: Byte)
    ensures Triple(a, b, c) / 0x1_0000 == a
    ensures Triple(a, b, c) / 0x100 % 0x100 == b
    ensures Triple(a, b, c) % 0x100 == c
  {
    var t := Triple(a, b, c);
    var low := b * 0x100 + c;
    assert low < 0x1_0000 && t == a * 0x1_0000 + low;
    assert t / 0x1_0000 == a;
    var mid := a * 0x100 + b;
    assert t == mid * 0x100 + c;
    assert t / 0x100 == mid;
    assert mid % 0x100 == b;
  }

  // ---------------------------------------------------------------------
  // The encoder as written (kui/src/kui.c:74-97)
  // ---------------------------------------------------------------------

  /**
   * The characters the loop emits from input index `i` on. Each iteration
   * takes `octet_a`, `octet_b`, `octet_c` with the ternaries of lines 83-85
   * (an index only advances while it is below `len`) and writes four
   * characters; the '=' tests of lines 91-92 are kept exactly as written.
   */
  function AsWrittenFrom(data: seq<Byte>, i: nat): string
    requires i <= |data|
    decreases |data| - i
  {
    if i >= |data| then []
    else
      var (group, next) := AsWrittenStep(data, i);
      group + AsWrittenFrom(data, next)
  }

  /**
   * One pass of the loop body from index `i`: the four characters written
   * and the index the ternaries leave behind.
   */
  function AsWrittenStep(data: seq<Byte>, i: nat): (r: (string, nat))
    requires i < |data|
    ensures |r.0| == 4
    ensures r.1 == if i + 3 <= |data| then i + 3 else |data|
  {
    var n := |data|;
    // The first ternary always takes its first branch: the loop runs only while i < len.
    var a, i1 := data[i], i + 1;
    var b, i2 := (if i1 < n then data[i1] else 0), (if i1 < n then i1 + 1 else i1);
    var c, i3 := (if i2 < n then data[i2] else 0), (if i2 < n then i2 + 1 else i2);
    var t := Triple(a, b, c);
    ([Digit(t, 18), Digit(t, 12),
      if i3 > n + 1 then Pad else Digit(t, 6),
      if i3 > n then Pad else Digit(t, 0)],
     i3)
  }

  lemma AsWrittenFromStep(data: seq<Byte>, i: nat)
    requires i < |data|
    ensures AsWrittenFrom(data, i) == AsWrittenStep(data, i).0 + AsWrittenFrom(data, AsWrittenStep(data, i).1)
  {
  }

  /** Moving a group from the pending text onto the written prefix keeps the whole. */
  lemma Regroup(done: string, group: string, rest: string, whole: string, written: string)
    requires written == done + group
    requires done + (group + rest) == whole
    ensures written + rest == whole
    ensures |written| + |rest| == |done| + |group + rest|
  {
  }

  /** What `kui_b64_encode(data, len)` returns, without the terminating NUL. */
  function AsWritten(data: seq<Byte>): string
  {
    AsWrittenFrom(data, 0)
  }

  lemma {:induction false} AsWrittenFromLength(data: seq<Byte>, i: nat)
    requires i <= |data|
    ensures |AsWrittenFrom(data, i)| == 4 * ((|data| - i + 2) / 3)
    decreases |data| - i
  {
    if i < |data| {
      var (group, next) := AsWrittenStep(data, i);
      AsWrittenFromLength(data, next);
      assert AsWrittenFrom(data, i) == group + AsWrittenFrom(data, next);
      if i + 3 <= |data| {
        assert (|data| - i + 2) / 3 == (|data| - next + 2) / 3 + 1;
      } else {
        assert (|data| - i + 2) / 3 == 1;
      }
    }
  }

  /** The output is exactly `4 * ((len + 2) / 3)` characters (line 77); empty in, empty out. */
  lemma AsWrittenLength(data: seq<Byte>)
    ensures |AsWritten(data)| == 4 * ((|data| + 2) / 3)
    ensures data == [] <==> AsWritten(data) == []
  {
    AsWrittenFromLength(data, 0);
  }

  /**
   * Every character comes from the table: because an index never passes
   * `len`, the '=' branches of lines 91-92 are never taken.
   */
  lemma {:induction false} AsWrittenFromAlphabet(data: seq<Byte>, i: nat)
    requires i <= |data|
    ensures forall k :: 0 <= k < |AsWrittenFrom(data, i)| ==> ValueOf(AsWrittenFrom(data, i)[k]).Some?
    decreases |data| - i
  {
    var n := |data|;
    if i < n {
      var (group, next) := AsWrittenStep(data, i);
      AsWrittenFromAlphabet(data, next);
      var t := Triple(data[i], if i + 1 < n then data[i + 1] else 0, if i + 2 < n then data[i + 2] else 0);
      assert group == Quad(t);
      ValueOfTable(Sextet(t, 18));
      ValueOfTable(Sextet(t, 12));
      ValueOfTable(Sextet(t, 6));
      ValueOfTable(Sextet(t, 0));
      var s := AsWrittenFrom(data, i);
      assert s == group + AsWrittenFrom(data, next);
      forall k | 0 <= k < |s|
        ensures ValueOf(s[k]).Some?
      {
        if k >= 4 {
          assert s[k] == AsWrittenFrom(data, next)[k - 4];
        }
      }
    }
  }

  /** The as-written output never holds a padding character. */
  lemma AsWrittenNeverPads(data: seq<Byte>)
    ensures Pad !in AsWritten(data)
  {
    AsWrittenFromAlphabet(data, 0);
  }

  /**
   * The loop of lines 81-93 writing into a buffer of `out_len + 1` characters;
   * the buffer holds `AsWritten(data)` followed by the NUL of line 95.
   */
  method EncodeAsWritten(data: seq<Byte>) returns (out: array<char>)
    ensures fresh(out)
    ensures out.Length == 4 * ((|data| + 2) / 3) + 1
    ensures out[..out.Length - 1] == AsWritten(data)
    ensures out[out.Length - 1] == '\0'
  {
    var len := |data|;
    var outLen := 4 * ((len + 2) / 3);
    out := new char[outLen + 1];
    AsWrittenLength(data);
    var i, j := 0, 0;
    while i < len
      invariant 0 <= i <= len
      invariant j + |AsWrittenFrom(data, i)| == outLen
      invariant out[..j] + AsWrittenFrom(data, i) == AsWritten(data)
    {
      ghost var i0, done := i, out[..j];
      i := EmitGroup(data, i, out, j);
      AsWrittenFromStep(data, i0);
      Regroup(done, AsWrittenStep(data, i0).0, AsWrittenFrom(data, i), AsWritten(data), out[..j + 4]);
      j := j + 4;
    }
    out[outLen] := '\0';
    assert out[..outLen] == out[..j];
  }

  /** One pass of the loop body: reads up to three octets from `i`, writes four characters at `j`. */
  method EmitGroup(data: seq<Byte>, i: nat, out: array<char>, j: nat) returns (next: nat)
    requires i < |data| && j + 4 <= out.Length
    modifies out
    ensures out[..j + 4] == old(out[..j]) + AsWrittenStep(data, i).0
    ensures next == AsWrittenStep(data, i).1
  {
    var len := |data|;
    next := i;
    // Lines 83-85; the first ternary always takes its first branch, as i < len here.
    var a := data[next];
    next := next + 1;
    var b: Byte := if next < len then data[next] else 0;
    next := if next < len then next + 1 else next;
    var c: Byte := if next < len then data[next] else 0;
    next := if next < len then next + 1 else next;
    var triple := Triple(a, b, c);
    out[j] := Digit(triple, 18);
    out[j + 1] := Digit(triple, 12);
    out[j + 2] := if next > len + 1 then Pad else Digit(triple, 6);
    out[j + 3] := if next > len then Pad else Digit(triple, 0);
  }

  // ---------------------------------------------------------------------
  // The standard encoding (section 4 of RFC 4648) and its decoder
  // ---------------------------------------------------------------------

  /**
   * The encoding the routine is meant to produce: full groups as four table
   * characters, a final group of one octet as two characters and "==", of
   * two octets as three characters and "=".
   */
  function Encode(data: seq<Byte>): string
    decreases |data|
  {
    if |data| == 0 then []
    else if |data| < 3 then FinalGroup(data)
    else Quad(Triple(data[0], data[1], data[2])) + Encode(data[3..])
  }

  /** A last group of one or two octets, padded with '='. */
  function FinalGroup(data: seq<Byte>): (g: string)
    requires 1 <= |data| <= 2
    ensures |g| == 4 && g[3] == Pad
  {
    if |data| == 1 then
      var t := Triple(data[0], 0, 0);
      [Digit(t, 18), Digit(t, 12), Pad, Pad]
    else
      var t := Triple(data[0], data[1], 0);
      [Digit(t, 18), Digit(t, 12), Digit(t, 6), Pad]
  }

  /** Decodes one group of four characters; padding is accepted only in the last group. */
  function DecodeGroup(c0: char, c1: char, c2: char, c3: char, last: bool): Option<seq<Byte>>
  {
    var v0, v1, v2, v3 := ValueOf(c0), ValueOf(c1), ValueOf(c2), ValueOf(c3);
    if v0.None? || v1.None? then None
    else if last && c2 == Pad && c3 == Pad then
      Some([Join(v0.value, v1.value, 0, 0) / 0x1_0000])
    else if v2.None? then None
    else if last && c3 == Pad then
      var u := Join(v0.value, v1.value, v2.value, 0);
      Some([u / 0x1_0000, u / 0x100 % 0x100])
    else if v3.None? then None
    else
      var u := Join(v0.value, v1.value, v2.value, v3.value);
      Some([u / 0x1_0000, u / 0x100 % 0x100, u % 0x100])
  }

  /**
   * The standard decoder: the text is a whole number of four-character
   * groups over the alphabet, with '=' only closing the last group. Any other
   * text is rejected.
   */
  function Decode(s: string): Option<seq<Byte>>
    decreases |s|
  {
    if |s| == 0 then Some([])
    else if |s| % 4 != 0 then None
    else
      match DecodeGroup(s[0], s[1], s[2], s[3], |s| == 4)
      case None => None
      case Some(g) =>
        if |s| == 4 then Some(g)
        else
          match Decode(s[4..])
          case None => None
          case Some(rest) => Some(g + rest)
  }

  lemma QuadDecodes(a: Byte, b: Byte, c: Byte, last: bool)
    ensures var q := Quad(Triple(a, b, c)); DecodeGroup(q[0], q[1], q[2], q[3], last) == Some([a, b, c])
  {
    var t := Triple(a, b, c);
    ValueOfTable(Sextet(t, 18));
    ValueOfTable(Sextet(t, 12));
    ValueOfTable(Sextet(t, 6));
    ValueOfTable(Sextet(t, 0));
    ValueOfTable(Sextet(t, 6));
    ValueOfTable(Sextet(t, 0));
    JoinSextets(t);
    SplitTriple(a, b, c);
  }

  /** A group with "==" carries one octet. */
  lemma OneOctetDecodes(a: Byte)
    ensures var t := Triple(a, 0, 0); DecodeGroup(Digit(t, 18), Digit(t, 12), Pad, Pad, true) == Some([a])
  {
    var t := Triple(a, 0, 0);
    ValueOfTable(Sextet(t, 18));
    ValueOfTable(Sextet(t, 12));
    OneOctetTail(a);
    JoinSextets(t);
    SplitTriple(a, 0, 0);
  }

  /** A group with one '=' carries two octets. */
  lemma TwoOctetsDecode(a: Byte, b: Byte)
    ensures var t := Triple(a, b, 0); DecodeGroup(Digit(t, 18), Digit(t, 12), Digit(t, 6), Pad, true) == Some([a, b])
  {
    var t := Triple(a, b, 0);
    ValueOfTable(Sextet(t, 18));
    ValueOfTable(Sextet(t, 12));
    ValueOfTable(Sextet(t, 6));
    TwoOctetsTail(a, b);
    JoinSextets(t);
    SplitTriple(a, b, 0);
  }

  lemma FinalGroupDecodes(data: seq<Byte>)
    requires 1 <= |data| <= 2
    ensures var g := FinalGroup(data); DecodeGroup(g[0], g[1], g[2], g[3], true) == Some(data)
  {
    if |data| == 1 {
      OneOctetDecodes(data[0]);
      assert data == [data[0]];
    } else {
      TwoOctetsDecode(data[0], data[1]);
      assert data == [data[0], data[1]];
    }
  }

  /** Round trip: decoding the encoding gives back every byte sequence, the empty one included. */
  lemma {:induction false} DecodeEncode(data: seq<Byte>)
    ensures Decode(Encode(data)) == Some(data)
    decreases |data|
  {
    if |data| == 0 {
      assert Encode(data) == [];
    } else if |data| < 3 {
      var s := Encode(data);
      assert s == FinalGroup(data);
      FinalGroupDecodes(data);
      assert Decode(s) == DecodeGroup(s[0], s[1], s[2], s[3], true);
    } else {
      if |data| > 3 {
        DecodeEncode(data[3..]);
      }
      DecodeEncodeGroup(data);
    }
  }

  /** One full group in front of the rest of the encoding. */
  lemma EncodeCons(data: seq<Byte>)
    requires |data| >= 3
    ensures Encode(data) == Quad(Triple(data[0], data[1], data[2])) + Encode(data[3..])
  {
  }

  /** Decoding a group in front of decodable text (or of nothing). */
  lemma DecodeFront(s: string, group: string, rest: string, g: seq<Byte>, r: seq<Byte>)
    requires |group| == 4 && s == group + rest && |s| % 4 == 0
    requires DecodeGroup(group[0], group[1], group[2], group[3], rest == []) == Some(g)
    requires rest == [] ==> r == []
    requires rest != [] ==> Decode(rest) == Some(r)
    ensures Decode(s) == Some(g + r)
  {
    assert s[0] == group[0] && s[1] == group[1] && s[2] == group[2] && s[3] == group[3];
    if rest == [] {
      assert g + r == g;
    } else {
      assert s[4..] == rest;
      DecodeCons(s, g, r);
    }
  }

  /** A full group in front of decodable text. */
  lemma DecodeCons(s: string, g: seq<Byte>, rest: seq<Byte>)
    requires |s| > 4 && |s| % 4 == 0
    requires DecodeGroup(s[0], s[1], s[2], s[3], false) == Some(g)
    requires Decode(s[4..]) == Some(rest)
    ensures Decode(s) == Some(g + rest)
  {
  }

  lemma FirstGroup(data: seq<Byte>)
    requires |data| >= 3
    ensures data == [data[0], data[1], data[2]] + data[3..]
  {
  }

  /** The inductive step of `DecodeEncode`: one full group in front of a round-tripping rest. */
  lemma DecodeEncodeGroup(data: seq<Byte>)
    requires |data| >= 3
    requires |data| > 3 ==> Decode(Encode(data[3..])) == Some(data[3..])
    ensures Decode(Encode(data)) == Some(data)
  {
    var q := Quad(Triple(data[0], data[1], data[2]));
    var rest := Encode(data[3..]);
    EncodeCons(data);
    EncodeLength(data[3..]);
    EncodeLength(data);
    WholeGroups(|Encode(data)|, (|data| + 2) / 3);
    assert rest == [] <==> |data| == 3;
    QuadDecodes(data[0], data[1], data[2], rest == []);
    DecodeFront(Encode(data), q, rest, [data[0], data[1], data[2]], data[3..]);
    FirstGroup(data);
  }

  lemma {:induction false} EncodeLength(data: seq<Byte>)
    ensures |Encode(data)| == 4 * ((|data| + 2) / 3)
    decreases |data|
  {
    if |data| < 3 {
      if |data| > 0 {
        assert Encode(data) == FinalGroup(data);
        assert (|data| + 2) / 3 == 1;
      }
    } else {
      EncodeLength(data[3..]);
      var q := Quad(Triple(data[0], data[1], data[2]));
      assert (|data| + 2) / 3 == (|data| - 3 + 2) / 3 + 1;
      assert Encode(data) == q + Encode(data[3..]);
    }
  }

  /** Where the input fills whole groups, the routine as written is the standard encoding. */
  lemma {:induction false} AsWrittenFullGroups(data: seq<Byte>, i: nat)
    requires i <= |data| && (|data| - i) % 3 == 0
    ensures AsWrittenFrom(data, i) == Encode(data[i..])
    decreases |data| - i
  {
    if i < |data| {
      AsWrittenFullGroups(data, i + 3);
      var t := Triple(data[i], data[i + 1], data[i + 2]);
      assert AsWrittenStep(data, i) == (Quad(t), i + 3);
      assert data[i..][3..] == data[i + 3..];
      assert Encode(data[i..]) == Quad(t) + Encode(data[i + 3..]);
    }
  }

  lemma AsWrittenStandardOnWholeGroups(data: seq<Byte>)
    requires |data| % 3 == 0
    ensures AsWritten(data) == Encode(data)
  {
    AsWrittenFullGroups(data, 0);
    assert data[0..] == data;
  }

  /** A full group, or a last group without '=', decodes to three octets. */
  lemma DecodeGroupFull(c0: char, c1: char, c2: char, c3: char, last: bool)
    requires !last || (c2 != Pad && c3 != Pad)
    requires DecodeGroup(c0, c1, c2, c3, last).Some?
    ensures |DecodeGroup(c0, c1, c2, c3, last).value| == 3
  {
  }

  lemma WholeGroups(n: nat, k: nat)
    requires n == 4 * k
    ensures n % 4 == 0
  {
  }

  lemma PlusThree(k: nat)
    ensures (k + 3) % 3 == k % 3
  {
  }

  /** A decoding of text with no '=' has a multiple of three octets. */
  lemma {:induction false} DecodeWithoutPadLength(s: string)
    requires Pad !in s
    requires Decode(s).Some?
    ensures |Decode(s).value| % 3 == 0
    decreases |s|
  {
    if |s| > 0 {
      assert |s| % 4 == 0;
      assert s[2] in s && s[3] in s;
      var g := DecodeGroup(s[0], s[1], s[2], s[3], |s| == 4);
      DecodeGroupFull(s[0], s[1], s[2], s[3], |s| == 4);
      if |s| == 4 {
        assert Decode(s) == g;
      } else {
        var tail := s[4..];
        assert forall k :: 0 <= k < |tail| ==> tail[k] == s[k + 4];
        DecodeWithoutPadLength(tail);
        var k := |Decode(tail).value|;
        assert Decode(s).value == g.value + Decode(tail).value;
        assert |Decode(s).value| == k + 3;
        PlusThree(k);
      }
    }
  }

  /**
   * The routine as written breaks the round trip for every input whose
   * length is not a multiple of three: its output has no '=' padding, so
   * the standard decoder reads a whole last group (see also
   * `NoDecoderRecovers`).
   */
  lemma AsWrittenRoundTripFails(data: seq<Byte>)
    requires |data| % 3 != 0
    ensures Decode(AsWritten(data)) != Some(data)
    ensures AsWritten(data) != Encode(data)
  {
    AsWrittenNeverPads(data);
    if Decode(AsWritten(data)) == Some(data) {
      DecodeWithoutPadLength(AsWritten(data));
    }
    EncodePadsShortGroup(data);
  }

  /** When the length is not a multiple of three, the standard encoding ends in '='. */
  lemma {:induction false} EncodePadsShortGroup(data: seq<Byte>)
    requires |data| % 3 != 0
    ensures |Encode(data)| > 0 && Encode(data)[|Encode(data)| - 1] == Pad
    decreases |data|
  {
    if |data| < 3 {
      assert Encode(data) == FinalGroup(data);
    } else {
      PlusThree(|data| - 3);
      EncodePadsShortGroup(data[3..]);
      EncodeCons(data);
      LastOfAppend(Quad(Triple(data[0], data[1], data[2])), Encode(data[3..]));
    }
  }

  lemma LastOfAppend(front: string, back: string)
    requires |back| > 0
    ensures |front + back| > 0 && (front + back)[|front + back| - 1] == back[|back| - 1]
  {
  }

  /** One octet: the source answers "QQAA" where the standard answer is "QQ==". */
  lemma AsWrittenOneOctet()
    ensures AsWritten([0x41]) == "QQAA"
    ensures Encode([0x41]) == "QQ=="
    ensures Decode(AsWritten([0x41])) == Some([0x41, 0, 0])
  {
    var t := Triple(0x41, 0, 0);
    assert t == 0x41_0000;
    assert Sextet(t, 18) == 16 && Sextet(t, 12) == 16 && Sextet(t, 6) == 0 && Sextet(t, 0) == 0;
    assert CharOf(16) == 'Q' && CharOf(0) == 'A';
    var q := Quad(t);
    assert q == "QQAA";
    assert AsWrittenStep([0x41], 0) == (q, 1);
    AsWrittenFromStep([0x41], 0);
    assert Encode([0x41]) == FinalGroup([0x41]);
    QuadDecodes(0x41, 0, 0, true);
    assert Decode(q) == DecodeGroup(q[0], q[1], q[2], q[3], true);
  }

  // ---------------------------------------------------------------------
  // What the routine as written computes instead
  // ---------------------------------------------------------------------

  /** How many '=' close the standard encoding of `n` octets: 0, 2 or 1 for `n % 3` of 0, 1 or 2. */
  function PadCount(n: nat): (p: nat)
    ensures p < 3 && (n + p) % 3 == 0
    ensures p == 0 <==> n % 3 == 0
  {
    (3 - n % 3) % 3
  }

  /** The input completed to whole groups with zero octets, as the ternaries of lines 84-85 read it. */
  function ZeroFill(data: seq<Byte>): (r: seq<Byte>)
    ensures |r| == |data| + PadCount(|data|) && r[..|data|] == data
  {
    data + seq(PadCount(|data|), _ => 0)
  }

  lemma ZeroFillCons(data: seq<Byte>)
    requires |data| >= 3
    ensures ZeroFill(data) == data[..3] + ZeroFill(data[3..])
  {
    PlusThree(|data| - 3);
    assert PadCount(|data|) == PadCount(|data| - 3);
    assert data == data[..3] + data[3..];
  }

  /** From index `i` on, the loop emits the standard encoding of the rest of the input filled with zeros. */
  lemma {:induction false} AsWrittenFromZeroFill(data: seq<Byte>, i: nat)
    requires i <= |data|
    ensures AsWrittenFrom(data, i) == Encode(ZeroFill(data[i..]))
    decreases |data| - i
  {
    var n := |data|;
    var z := ZeroFill(data[i..]);
    if i == n {
      assert z == [];
    } else if i + 3 <= n {
      AsWrittenFromZeroFill(data, i + 3);
      ZeroFillCons(data[i..]);
      assert data[i..][3..] == data[i + 3..];
      assert z[0] == data[i] && z[1] == data[i + 1] && z[2] == data[i + 2];
      assert z[3..] == ZeroFill(data[i + 3..]);
      EncodeCons(z);
      assert AsWrittenStep(data, i) == (Quad(Triple(data[i], data[i + 1], data[i + 2])), i + 3);
    } else {
      var b: Byte := if i + 1 < n then data[i + 1] else 0;
      var c: Byte := 0;
      assert |z| == 3 && z[0] == data[i] && z[1] == b && z[2] == c;
      EncodeCons(z);
      assert Encode(z[3..]) == [];
      assert AsWrittenStep(data, i) == (Quad(Triple(data[i], b, c)), n);
      assert AsWrittenFrom(data, n) == [];
    }
  }

  /** `kui_b64_encode` as written is the standard encoding of its input filled with zero octets to whole groups. */
  lemma AsWrittenIsZeroFilled(data: seq<Byte>)
    ensures AsWritten(data) == Encode(ZeroFill(data))
  {
    AsWrittenFromZeroFill(data, 0);
    assert data[0..] == data;
  }

  /** `a` is `e` with its last `p` characters, all of them '=', each replaced by 'A'. */
  predicate PadsBecomeA(e: string, a: string, p: nat)
  {
    |a| == |e| && p <= |e| && a[..|e| - p] == e[..|e| - p] &&
    forall k :: |e| - p <= k < |e| ==> e[k] == Pad && a[k] == 'A'
  }

  lemma PadsBecomeAFront(q: string, e: string, a: string, p: nat)
    requires PadsBecomeA(e, a, p)
    ensures PadsBecomeA(q + e, q + a, p)
  {
    assert (q + a)[..|q + e| - p] == q + a[..|e| - p];
    assert (q + e)[..|q + e| - p] == q + e[..|e| - p];
  }

  /** A lone last octet: the two sextets after it are zero, 'A' in the table. */
  lemma OneOctetTail(a: Byte)
    ensures var t := Triple(a, 0, 0); Sextet(t, 6) == 0 && Sextet(t, 0) == 0
    ensures var t := Triple(a, 0, 0); Digit(t, 6) == 'A' && Digit(t, 0) == 'A'
  {
    var t := Triple(a, 0, 0);
    assert t / 0x40 == a as int * 0x400;
    assert Sextet(t, 6) == 0 && Sextet(t, 0) == 0;
  }

  /** Two last octets: the sextet after them is zero. */
  lemma TwoOctetsTail(a: Byte, b: Byte)
    ensures Sextet(Triple(a, b, 0), 0) == 0 && Digit(Triple(a, b, 0), 0) == 'A'
  {
    var t := Triple(a, b, 0);
    assert t == (a as int * 0x400 + b as int * 4) * 0x40;
    assert Sextet(t, 0) == 0;
  }

  lemma {:induction false} EncodeZeroFill(data: seq<Byte>)
    ensures PadsBecomeA(Encode(data), Encode(ZeroFill(data)), PadCount(|data|))
    decreases |data|
  {
    var z := ZeroFill(data);
    if |data| == 0 {
      assert z == [];
    } else if |data| < 3 {
      assert |z| == 3;
      EncodeCons(z);
      assert Encode(z[3..]) == [];
      assert Encode(data) == FinalGroup(data);
      if |data| == 1 {
        assert z == [data[0], 0, 0];
        OneOctetTail(data[0]);
      } else {
        assert z == [data[0], data[1], 0];
        TwoOctetsTail(data[0], data[1]);
      }
    } else {
      EncodeZeroFill(data[3..]);
      ZeroFillCons(data);
      assert z[0] == data[0] && z[1] == data[1] && z[2] == data[2] && z[3..] == ZeroFill(data[3..]);
      EncodeCons(z);
      EncodeCons(data);
      PlusThree(|data| - 3);
      PadsBecomeAFront(Quad(Triple(data[0], data[1], data[2])), Encode(data[3..]), Encode(ZeroFill(data[3..])), PadCount(|data|));
    }
  }

  /**
   * For every input, the output as written is the standard encoding with
   * each '=' of its final group replaced by 'A': two of them for a last
   * group of one octet, one for a last group of two.
   */
  lemma AsWrittenPadsWithA(data: seq<Byte>)
    ensures PadsBecomeA(Encode(data), AsWritten(data), PadCount(|data|))
    ensures |data| % 3 == 1 ==> PadCount(|data|) == 2
    ensures |data| % 3 == 2 ==> PadCount(|data|) == 1
  {
    AsWrittenIsZeroFilled(data);
    EncodeZeroFill(data);
  }

  /** An input whose last group is short encodes exactly like the same input with one more zero octet. */
  lemma AsWrittenCollides(data: seq<Byte>)
    requires |data| % 3 != 0
    ensures AsWritten(data + [0]) == AsWritten(data) && data + [0] != data
  {
    AsWrittenIsZeroFilled(data);
    AsWrittenIsZeroFilled(data + [0]);
    SameZeroFill(data);
    assert |data + [0]| != |data|;
  }

  lemma SameZeroFill(data: seq<Byte>)
    requires |data| % 3 != 0
    ensures ZeroFill(data + [0]) == ZeroFill(data)
  {
    var n := |data|;
    if n % 3 == 1 {
      assert PadCount(n) == 2 && PadCount(n + 1) == 1;
      assert seq(2, _ => 0) == [0, 0] && seq(1, _ => 0) == [0];
      assert data + [0, 0] == data + [0] + [0];
    } else {
      assert PadCount(n) == 1 && PadCount(n + 1) == 0;
      assert seq(1, _ => 0) == [0];
      assert (data + [0]) + [] == data + [0];
    }
  }

  /** Hence no decoder at all recovers every input from the output as written. */
  lemma NoDecoderRecovers(decode: string -> Option<seq<Byte>>, data: seq<Byte>)
    requires |data| % 3 != 0
    ensures decode(AsWritten(data)) != Some(data) || decode(AsWritten(data + [0])) != Some(data + [0])
  {
    AsWrittenCollides(data);
  }

  /** The standard decoder gives the input back from the output as written exactly when the length is a multiple of three. */
  lemma AsWrittenDecodes(data: seq<Byte>)
    ensures Decode(AsWritten(data)) == Some(data) <==> |data| % 3 == 0
  {
    if |data| % 3 == 0 {
      AsWrittenStandardOnWholeGroups(data);
      DecodeEncode(data);
    } else {
      AsWrittenRoundTripFails(data);
    }
  }
}
