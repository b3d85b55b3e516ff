/**
 * The error reply `reply_err` of kui/src/kui.c:59-72: `{"error":"`, the
 * message with a backslash in front of every `"` and `\`, then `"}` and a
 * NUL, written with a counter `k` into a 512-byte stack buffer.
 *
 * A message is the characters of the C string before its terminator.
 */
module ErrorReply {

  const BufSize: nat := 512
  const Open: string := "{\"error\":\""
  const Close: string := "\"}"

  /** Whether `c` is one of the two characters the escaper protects. */
  predicate Special(c: char)
  {
    c == '"' || c == '\\'
  }

  /** What the loop body writes for one character (lines 66-67). */
  function EscChar(c: char): (w: string)
    ensures |w| == (if Special(c) then 2 else 1) && w[|w| - 1] == c
  {
    if Special(c) then ['\\', c] else [c]
  }

  /** The whole message, escaped. */
  function JsonEscape(msg: string): string
  {
    if msg == [] then [] else EscChar(msg[0]) + JsonEscape(msg[1..])
  }

  /** The JSON reading of an escaped string: a backslash stands for the character after it. */
  function JsonUnescape(s: string): string
  {
    if s == [] then []
    else if s[0] == '\\' && |s| >= 2 then [s[1]] + JsonUnescape(s[2..])
    else [s[0]] + JsonUnescape(s[1..])
  }

  /** The number of characters that gain a backslash. */
  function SpecialCount(msg: string): nat
  {
    if msg == [] then 0 else (if Special(msg[0]) then 1 else 0) + SpecialCount(msg[1..])
  }

  // ---------------------------------------------------------------------
  // The escaper
  // ---------------------------------------------------------------------

  /** Reading the escaped message as JSON gives the message back. */
  lemma {:induction false} UnescapeEscape(msg: string)
    ensures JsonUnescape(JsonEscape(msg)) == msg
    decreases |msg|
  {
    if msg != [] {
      UnescapeEscape(msg[1..]);
      var w := EscChar(msg[0]);
      assert JsonEscape(msg) == w + JsonEscape(msg[1..]);
      if Special(msg[0]) {
        assert (w + JsonEscape(msg[1..]))[2..] == JsonEscape(msg[1..]);
      } else {
        assert (w + JsonEscape(msg[1..]))[1..] == JsonEscape(msg[1..]);
      }
    }
  }

  /** The escaped message is one character longer per `"` or `\`. */
  lemma {:induction false} JsonEscapeLength(msg: string)
    ensures |JsonEscape(msg)| == |msg| + SpecialCount(msg)
    decreases |msg|
  {
    if msg != [] {
      JsonEscapeLength(msg[1..]);
    }
  }

  /** Escaping works character by character. */
  lemma {:induction false} JsonEscapeAppend(a: string, b: string)
    ensures JsonEscape(a + b) == JsonEscape(a) + JsonEscape(b)
    decreases |a|
  {
    if a != [] {
      assert (a + b)[1..] == a[1..] + b;
      JsonEscapeAppend(a[1..], b);
    } else {
      assert a + b == b;
    }
  }

  /** Escaping one more character of the message appends what the loop body writes. */
  lemma EscapeExtend(msg: string, i: nat)
    requires i < |msg|
    ensures JsonEscape(msg[..i + 1]) == JsonEscape(msg[..i]) + EscChar(msg[i])
  {
    assert msg[..i + 1] == msg[..i] + [msg[i]];
    JsonEscapeAppend(msg[..i], [msg[i]]);
  }

  /** A longer prefix never escapes to a shorter text. */
  lemma {:induction false} EscapeMonotone(msg: string, i: nat, j: nat)
    requires i <= j <= |msg|
    ensures |JsonEscape(msg[..i])| <= |JsonEscape(msg[..j])|
    decreases j - i
  {
    if i < j {
      EscapeExtend(msg, j - 1);
      EscapeMonotone(msg, i, j - 1);
    }
  }

  /** A message with neither `"` nor `\` is copied unchanged. */
  lemma {:induction false} PlainUnchanged(msg: string)
    requires forall k :: 0 <= k < |msg| ==> !Special(msg[k])
    ensures JsonEscape(msg) == msg
    decreases |msg|
  {
    if msg != [] {
      PlainUnchanged(msg[1..]);
    }
  }

  // ---------------------------------------------------------------------
  // The source as written: the loop guard `k + 2 < sizeof(buf)` (line 65)
  // ---------------------------------------------------------------------

  /**
   * How many message characters the loop of lines 65-68 consumes: it goes
   * on while characters remain and `k + 2 < 512`, where `k` is 10 plus the
   * escaped length so far.
   */
  function StopFrom(msg: string, i: nat): (s: nat)
    requires i <= |msg|
    ensures i <= s <= |msg|
    decreases |msg| - i
  {
    if i < |msg| && 10 + |JsonEscape(msg[..i])| + 2 < BufSize then StopFrom(msg, i + 1) else i
  }

  /**
   * Everything the source writes, in order from `buf[0]`: the opening, the
   * escaped characters the loop consumed, then `"`, `}` and the NUL of lines
   * 69-70. Nothing here stops at the end of the buffer.
   */
  function AsWrittenWrites(msg: string): string
  {
    Open + JsonEscape(msg[..StopFrom(msg, 0)]) + Close + ['\0']
  }

  /** The loop stops either at the end of the message or once `k` has reached 510. */
  lemma {:induction false} StopFromShape(msg: string, i: nat)
    requires i <= |msg|
    requires i == 0 || 10 + |JsonEscape(msg[..i - 1])| + 2 < BufSize
    ensures var s := StopFrom(msg, i);
      (s == |msg| || 10 + |JsonEscape(msg[..s])| + 2 >= BufSize) &&
      (s == 0 || 10 + |JsonEscape(msg[..s - 1])| + 2 < BufSize)
    decreases |msg| - i
  {
    if i < |msg| && 10 + |JsonEscape(msg[..i])| + 2 < BufSize {
      StopFromShape(msg, i + 1);
    }
  }

  /**
   * The writes stay inside `buf[512]` exactly when the escaped message has
   * at most 499 characters, and when it has 499 the NUL lands on the last
   * byte; past that the source writes up to two bytes beyond the end.
   */
  lemma AsWrittenInBounds(msg: string)
    ensures |AsWrittenWrites(msg)| <= BufSize <==> |JsonEscape(msg)| <= 499
    ensures |AsWrittenWrites(msg)| <= BufSize + 2
    ensures |JsonEscape(msg)| <= 499 ==> AsWrittenWrites(msg) == Open + JsonEscape(msg) + Close + ['\0']
  {
    StopFacts(msg);
    WritesLength(msg);
  }

  /**
   * Where the loop stops: at the end of the message or once 500 escaped
   * characters are out, never past 501 of them and never past what the
   * whole message escapes to.
   */
  lemma StopFacts(msg: string)
    ensures var s := StopFrom(msg, 0);
      var a := |JsonEscape(msg[..s])|;
      a <= |JsonEscape(msg)| && a <= 501 && (s == |msg| ==> msg[..s] == msg) &&
      (s < |msg| ==> 500 <= a)
  {
    var s := StopFrom(msg, 0);
    StopFromShape(msg, 0);
    assert msg[..|msg|] == msg;
    EscapeMonotone(msg, s, |msg|);
    if s > 0 {
      EscapeExtend(msg, s - 1);
    }
  }

  /** The writes are the escaped prefix and thirteen fixed characters. */
  lemma WritesLength(msg: string)
    ensures |AsWrittenWrites(msg)| == 13 + |JsonEscape(msg[..StopFrom(msg, 0)])|
  {
  }

  /** Five hundred plain characters already push the closing `}` and the NUL past the buffer. */
  lemma AsWrittenOverflows()
    ensures var msg := seq(500, _ => 'a');
      |AsWrittenWrites(msg)| == BufSize + 1
  {
    var msg := seq(500, _ => 'a');
    PlainUnchanged(msg);
    AsWrittenInBounds(msg);
    var s := StopFrom(msg, 0);
    StopFromShape(msg, 0);
    PlainUnchanged(msg[..s]);
  }

  // ---------------------------------------------------------------------
  // The corrected builder: a character is taken only if it and the closing
  // `"}` and NUL still fit
  // ---------------------------------------------------------------------

  /** How many message characters fit, counting from `i`. */
  function FitFrom(msg: string, i: nat): (n: nat)
    requires i <= |msg|
    ensures i <= n <= |msg|
    decreases |msg| - i
  {
    if i < |msg| && |JsonEscape(msg[..i + 1])| <= 499 then FitFrom(msg, i + 1) else i
  }

  function FitCount(msg: string): nat
  {
    FitFrom(msg, 0)
  }

  /** The characters kept are the longest prefix whose escape leaves room for the closing. */
  lemma FitCountMaximal(msg: string)
    ensures var n := FitCount(msg);
      n <= |msg| && |JsonEscape(msg[..n])| <= 499 &&
      (n < |msg| ==> |JsonEscape(msg[..n + 1])| > 499) &&
      (|JsonEscape(msg)| <= 499 <==> n == |msg|)
  {
    FitFromMaximal(msg, 0);
    var n := FitCount(msg);
    assert msg[..|msg|] == msg;
    if n < |msg| {
      EscapeMonotone(msg, n + 1, |msg|);
    }
  }

  lemma {:induction false} FitFromMaximal(msg: string, i: nat)
    requires i <= |msg| && |JsonEscape(msg[..i])| <= 499
    ensures var n := FitFrom(msg, i);
      |JsonEscape(msg[..n])| <= 499 && (n < |msg| ==> |JsonEscape(msg[..n + 1])| > 499)
    decreases |msg| - i
  {
    if i < |msg| && |JsonEscape(msg[..i + 1])| <= 499 {
      FitFromMaximal(msg, i + 1);
    }
  }

  /**
   * `reply_err` with the bound corrected: the reply is the opening, the
   * escaped longest fitting prefix of the message and the closing, followed
   * by a NUL, all inside the 512-byte buffer.
   */
  method ReplyErr(msg: string) returns (buf: array<char>, len: nat)
    ensures buf.Length == BufSize && len < BufSize && buf[len] == '\0'
    ensures buf[..len] == Open + JsonEscape(msg[..FitCount(msg)]) + Close
  {
    buf := new char[BufSize];
    forall j | 0 <= j < |Open| {
      buf[j] := Open[j];
    }
    var k := CopyFitting(buf, msg);
    buf[k] := '"';
    buf[k + 1] := '}';
    len := k + 2;
    buf[len] := '\0';
    assert buf[..len] == buf[..k] + Close;
  }

  /**
   * The copying loop of lines 65-68 with the bound corrected: after the
   * opening, it appends escaped characters while the character, the
   * closing `"}` and the NUL still fit.
   */
  method CopyFitting(buf: array<char>, msg: string) returns (k: nat)
    requires buf.Length == BufSize && buf[..|Open|] == Open
    modifies buf
    ensures k == 10 + |JsonEscape(msg[..FitCount(msg)])| <= 509
    ensures buf[..k] == Open + JsonEscape(msg[..FitCount(msg)])
  {
    k := |Open|;
    var i := 0;
    assert msg[..0] == [];
    while i < |msg| && k + |EscChar(msg[i])| + 3 <= BufSize
      invariant 0 <= i <= |msg| && FitFrom(msg, i) == FitCount(msg)
      invariant k == 10 + |JsonEscape(msg[..i])| <= 509
      invariant buf[..k] == Open + JsonEscape(msg[..i])
      decreases |msg| - i
    {
      EscapeExtend(msg, i);
      k := PutChar(buf, k, msg[i]);
      i := i + 1;
    }
    if i < |msg| {
      EscapeExtend(msg, i);
    }
  }

  /** One pass of the loop body: a backslash first if needed, then the character (lines 66-67). */
  method PutChar(buf: array<char>, k: nat, c: char) returns (next: nat)
    requires k + |EscChar(c)| <= buf.Length
    modifies buf
    ensures next == k + |EscChar(c)|
    ensures buf[..next] == old(buf[..k]) + EscChar(c)
  {
    next := k;
    if Special(c) {
      buf[next] := '\\';
      next := next + 1;
    }
    buf[next] := c;
    next := next + 1;
  }

  /** Whenever the source stays inside its buffer, the corrected builder writes exactly what it does. */
  lemma CorrectedAgrees(msg: string)
    requires |JsonEscape(msg)| <= 499
    ensures FitCount(msg) == |msg| && msg[..FitCount(msg)] == msg
    ensures AsWrittenWrites(msg) == Open + JsonEscape(msg[..FitCount(msg)]) + Close + ['\0']
  {
    FitCountMaximal(msg);
    AsWrittenInBounds(msg);
    assert msg[..|msg|] == msg;
  }
}
