/**
 * The page assembler `build_page_n` of kui/src/kui.c:244-268: a fixed head
 * that opens a `<script>` element, the escaped prelude, a fixed middle that
 * closes it and opens `<body>`, the body, and a fixed tail.
 */
module Page {
  import opened Wrappers
  import opened ScriptEscape

  /** The head; written in pieces only so that the verifier can index it. */
  const Head: string := "<!doctype html>" + "<html><head>" + "<meta charset=" + "\"utf-8\">" + "<script>"
  const Mid: string := "</script></head><body>"
  const Tail: string := "</body></html>"

  /** `prelude ? prelude : ""` with length `prelude ? prelude_len : 0` (line 247). */
  function PreludeText(prelude: Option<string>): string
  {
    if prelude.Some? then prelude.value else []
  }

  /** The page text, without the terminating NUL. */
  function Page(body: string, prelude: Option<string>): string
  {
    Head + Escape(PreludeText(prelude)) + Mid + body + Tail
  }

  /** Where the middle part, and with it the first `</script`, starts. */
  function ScriptEnd(prelude: Option<string>): nat
  {
    |Head| + |Escape(PreludeText(prelude))|
  }

  /**
   * `build_page_n(body, body_len, prelude, prelude_len)`: sizes the buffer
   * as the sum of the five parts plus the NUL, then copies the parts in
   * order (lines 254-264).
   */
  method BuildPage(body: string, prelude: Option<string>) returns (buf: array<char>)
    ensures buf.Length == |Head| + |Escape(PreludeText(prelude))| + |Mid| + |body| + |Tail| + 1
    ensures buf[..buf.Length - 1] == Page(body, prelude)
    ensures buf[buf.Length - 1] == '\0'
  {
    var js := PreludeText(prelude);
    var esc, escLen := EscapeScript(js);
    ghost var e := esc[..escLen];
    var total := |Head| + escLen + |Mid| + |body| + |Tail| + 1;
    buf := new char[total];
    var at := CopyInto(buf, 0, Head);
    assert buf[..at] == Head;
    if escLen > 0 {
      at := CopyInto(buf, at, esc[..escLen]);
    }
    assert buf[..at] == Head + e;
    at := CopyInto(buf, at, Mid);
    if |body| > 0 {
      at := CopyInto(buf, at, body);
    }
    assert buf[..at] == Head + e + Mid + body;
    at := CopyInto(buf, at, Tail);
    buf[at] := '\0';
    assert buf[..at] == Head + e + Mid + body + Tail;
  }

  /** `memcpy(p, src, len); p += len`. */
  method CopyInto(buf: array<char>, at: nat, src: string) returns (next: nat)
    requires at + |src| <= buf.Length
    modifies buf
    ensures next == at + |src|
    ensures buf[..next] == old(buf[..at]) + src
  {
    forall k | 0 <= k < |src| {
      buf[at + k] := src[k];
    }
    next := at + |src|;
  }

  // ---------------------------------------------------------------------
  // Properties
  // ---------------------------------------------------------------------

  /** The length is the sum of the five parts; the prelude grows by one per escaped sequence. */
  lemma PageLength(body: string, prelude: Option<string>)
    ensures |Page(body, prelude)| ==
      |Head| + |PreludeText(prelude)| + Matches(PreludeText(prelude)) + |Mid| + |body| + |Tail|
  {
    EscapeLength(PreludeText(prelude));
  }

  /** The body is copied verbatim right after the middle part, and the page ends with the tail. */
  lemma BodyVerbatim(body: string, prelude: Option<string>)
    ensures var page, at := Page(body, prelude), ScriptEnd(prelude) + |Mid|;
      at + |body| + |Tail| == |page| && page[at..at + |body|] == body && page[at + |body|..] == Tail
  {
    var page, at := Page(body, prelude), ScriptEnd(prelude) + |Mid|;
    var front := Head + Escape(PreludeText(prelude)) + Mid;
    assert page == front + body + Tail;
    assert |front| == at;
    assert page[at..at + |body|] == body;
  }

  /** The page splits into the text before the middle part and the rest. */
  lemma PageSplit(body: string, prelude: Option<string>)
    ensures var page, b := Page(body, prelude), ScriptEnd(prelude);
      b + |Mid| <= |page| &&
      page[..|Head|] == Head && page[|Head|..b] == Escape(PreludeText(prelude)) &&
      page[b..b + |Mid|] == Mid
  {
    var e := Escape(PreludeText(prelude));
    var page := Page(body, prelude);
    assert page == Head + e + Mid + (body + Tail);
  }

  /** The head holds no `/` and ends in `>`. */
  lemma HeadShape()
    ensures '/' !in Head
    ensures |Head| == 57 && Head[56] == '>'
  {
  }

  /** A window that lies inside a slice is a window of the slice. */
  lemma CloseInSlice(t: string, lo: nat, hi: nat, k: nat)
    requires lo <= k && k + 8 <= hi <= |t|
    ensures IsClose(t, k) <==> IsClose(t[lo..hi], k - lo)
  {
    var u := t[lo..hi];
    assert forall j :: k <= j < k + 8 ==> t[j] == u[j - lo];
  }

  /**
   * The script element opened by the head is closed exactly where the
   * middle part starts: no `</script` in any letter case appears earlier,
   * whatever the prelude holds, and the one at the middle part is found by
   * the source's own test as well.
   */
  lemma ScriptClosesAtMid(body: string, prelude: Option<string>)
    ensures var page, b := Page(body, prelude), ScriptEnd(prelude);
      IsClose(page, b) && CloseAt(page, b) &&
      forall k :: 0 <= k < b ==> !IsClose(page, k) && !CloseAt(page, k)
  {
    var page, b := Page(body, prelude), ScriptEnd(prelude);
    var e := Escape(PreludeText(prelude));
    PageSplit(body, prelude);
    HeadShape();
    EscapeHasNoClose(PreludeText(prelude));
    assert page[b..b + |Mid|][..8] == Mid[..8];
    assert page[b] == '<' && page[b + 1] == '/' && page[b + 2] == 's' && page[b + 3] == 'c';
    assert page[b + 4] == 'r' && page[b + 5] == 'i' && page[b + 6] == 'p' && page[b + 7] == 't';
    CloseAtIsClose(page, b);
    forall k | 0 <= k < b
      ensures !IsClose(page, k) && !CloseAt(page, k)
    {
      CloseAtIsClose(page, k);
      if k < |Head| {
        if k + 1 < |Head| {
          assert page[k + 1] == Head[k + 1];
        } else {
          assert page[k] == Head[56];
        }
      } else if k + 8 <= b {
        CloseInSlice(page, |Head|, b, k);
        assert page[|Head|..b] == e;
      } else if k + 8 <= |page| && page[k] == '<' && page[k + 1] == '/' {
        assert k + 1 < b;
        ScriptWordOverMid(page, k, b);
      }
    }
  }

  /** A `<` inside the six letters of a window stops it from spelling "script". */
  lemma ScriptWordOverMid(page: string, k: nat, b: nat)
    requires k + 2 <= b < k + 8 <= |page| && page[b] == '<'
    ensures !ScriptWord(page, k + 2)
  {
    if ScriptWord(page, k + 2) {
      ScriptWordHasNoAngle(page, k + 2);
    }
  }
}
