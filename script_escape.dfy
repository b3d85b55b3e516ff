/**
 * The script-tag escaper `esc_script_n` of kui/src/kui.c: text placed inside
 * a `<script>` element must not close it early, so every case-insensitive
 * `</script` becomes `<\/script`, which a script engine reads the same way.
 *
 * Each `char` stands for one byte of the C buffer.
 */
module ScriptEscape {

  /** The C expression `c | 32` on a non-negative character code: sets bit 5. */
  function Or32(v: nat): (r: nat)
    ensures r % 64 >= 32
    ensures r == v || r == v + 32
  {
    if v % 64 >= 32 then v else v + 32
  }

  /**
   * `(c | 32) == l` for a lower-case letter `l`, as the source writes it
   * (kui/src/kui.c:219-221 and 230-232).
   */
  predicate OrMatches(c: char, l: char)
  {
    Or32(c as nat) == l as nat
  }

  /** Case-insensitive equality with a lower-case ASCII letter. */
  predicate FoldsTo(c: char, l: char)
  {
    c == l || c as int == l as int - 32
  }

  /** For the six letters of "script", the bitwise test is exactly case-insensitive equality. */
  lemma OrMatchesLetter(c: char, l: char)
    requires l == 's' || l == 'c' || l == 'r' || l == 'i' || l == 'p' || l == 't'
    ensures OrMatches(c, l) <==> FoldsTo(c, l)
  {
    assert (l as nat) % 64 >= 32;
    if FoldsTo(c, l) && c != l {
      assert (c as nat) % 64 == (l as nat) % 64 - 32;
    }
  }

  /** `<` folds to no letter: its bit 5 is already set. */
  lemma AngleIsNoLetter(l: char)
    requires l == 's' || l == 'c' || l == 'r' || l == 'i' || l == 'p' || l == 't'
    ensures !FoldsTo('<', l)
  {
  }

  /** The test of lines 218-221 and 229-232: a closing `</script` starts at `i`. */
  predicate CloseAt(s: seq<char>, i: nat)
  {
    i + 8 <= |s| && s[i] == '<' && s[i + 1] == '/' &&
    OrMatches(s[i + 2], 's') && OrMatches(s[i + 3], 'c') &&
    OrMatches(s[i + 4], 'r') && OrMatches(s[i + 5], 'i') &&
    OrMatches(s[i + 6], 'p') && OrMatches(s[i + 7], 't')
  }

  /** The same test stated as case-insensitive equality. */
  predicate IsClose(s: seq<char>, i: nat)
  {
    i + 8 <= |s| && s[i] == '<' && s[i + 1] == '/' && ScriptWord(s, i + 2)
  }

  /** The six characters from `k` spell "script" in any letter case. */
  predicate ScriptWord(s: seq<char>, k: nat)
    requires k + 6 <= |s|
  {
    FoldsTo(s[k], 's') && FoldsTo(s[k + 1], 'c') && FoldsTo(s[k + 2], 'r') &&
    FoldsTo(s[k + 3], 'i') && FoldsTo(s[k + 4], 'p') && FoldsTo(s[k + 5], 't')
  }

  lemma CloseAtIsClose(s: seq<char>, i: nat)
    ensures CloseAt(s, i) <==> IsClose(s, i)
  {
    if i + 8 <= |s| {
      OrMatchesLetter(s[i + 2], 's');
      OrMatchesLetter(s[i + 3], 'c');
      OrMatchesLetter(s[i + 4], 'r');
      OrMatchesLetter(s[i + 5], 'i');
      OrMatchesLetter(s[i + 6], 'p');
      OrMatchesLetter(s[i + 7], 't');
    }
  }

  /** The number of positions from `i` on where a closing sequence starts. */
  function MatchesFrom(s: seq<char>, i: nat): nat
    requires i <= |s|
    decreases |s| - i
  {
    if i == |s| then 0
    else (if IsClose(s, i) then 1 else 0) + MatchesFrom(s, i + 1)
  }

  /** `extra` of line 216: how many closing sequences the input holds. */
  function Matches(s: seq<char>): nat
  {
    MatchesFrom(s, 0)
  }

  /**
   * What the copying loop of lines 227-238 emits from input index `i` on:
   * at a closing sequence it writes `<\/` and moves past `</`, so the rest
   * of the word is copied by the following steps.
   */
  function EscapeFrom(s: seq<char>, i: nat): string
    requires i <= |s|
    decreases |s| - i
  {
    if i == |s| then []
    else if IsClose(s, i) then ['<', '\\', '/'] + EscapeFrom(s, i + 2)
    else [s[i]] + EscapeFrom(s, i + 1)
  }

  /** The escaped text, without the terminating NUL. */
  function Escape(s: seq<char>): string
  {
    EscapeFrom(s, 0)
  }

  // ---------------------------------------------------------------------
  // The routine
  // ---------------------------------------------------------------------

  /**
   * `esc_script_n(js, n, &out_len)`: a counting pass sizes the buffer at
   * `n + extra + 1`; a copying pass fills it. Every write is bounds-checked
   * against that size, so the two passes agree.
   */
  method EscapeScript(js: seq<char>) returns (out: array<char>, outLen: nat)
    ensures out.Length == |js| + Matches(js) + 1
    ensures outLen == |js| + Matches(js)
    ensures out[..outLen] == Escape(js)
    ensures out[outLen] == '\0'
  {
    var n := |js|;
    var extra := 0;
    var i := 0;
    while i + 8 <= n
      invariant i <= n
      invariant extra + MatchesFrom(js, i) == Matches(js)
    {
      CloseAtIsClose(js, i);
      if CloseAt(js, i) {
        extra := extra + 1;
      }
      i := i + 1;
    }
    NoMatchNearEnd(js, i);
    out := new char[n + extra + 1];
    EscapeFromLength(js, 0);
    var p := 0;
    i := 0;
    while i < n
      invariant i <= n
      invariant p + |EscapeFrom(js, i)| == n + extra
      invariant out[..p] + EscapeFrom(js, i) == Escape(js)
    {
      ghost var done := out[..p];
      CloseAtIsClose(js, i);
      if i + 8 <= n && CloseAt(js, i) {
        out[p] := '<';
        out[p + 1] := '\\';
        out[p + 2] := '/';
        Regroup(done, ['<', '\\', '/'], EscapeFrom(js, i + 2), Escape(js), out[..p + 3]);
        p := p + 3;
        i := i + 2;
      } else {
        out[p] := js[i];
        Regroup(done, [js[i]], EscapeFrom(js, i + 1), Escape(js), out[..p + 1]);
        p := p + 1;
        i := i + 1;
      }
    }
    out[p] := '\0';
    assert out[..p] == Escape(js);
    outLen := p;
  }

  /** Moving a piece from the pending text onto the written prefix keeps the whole. */
  lemma Regroup(done: string, piece: string, rest: string, whole: string, written: string)
    requires written == done + piece
    requires done + (piece + rest) == whole
    ensures written + rest == whole
    ensures |written| + |rest| == |done| + |piece + rest|
  {
  }

  // ---------------------------------------------------------------------
  // Properties
  // ---------------------------------------------------------------------

  /** No closing sequence starts within the last seven characters. */
  lemma {:induction false} NoMatchNearEnd(s: seq<char>, i: nat)
    requires i <= |s| && |s| < i + 8
    ensures MatchesFrom(s, i) == 0
    decreases |s| - i
  {
    if i < |s| {
      NoMatchNearEnd(s, i + 1);
    }
  }

  lemma {:induction false} EscapeFromLength(s: seq<char>, i: nat)
    requires i <= |s|
    ensures |EscapeFrom(s, i)| == |s| - i + MatchesFrom(s, i)
    decreases |s| - i
  {
    if i < |s| {
      if IsClose(s, i) {
        EscapeFromLength(s, i + 2);
        assert !IsClose(s, i + 1);
        assert MatchesFrom(s, i) == 1 + MatchesFrom(s, i + 2);
      } else {
        EscapeFromLength(s, i + 1);
      }
    }
  }

  /** The output is exactly one character longer per closing sequence. */
  lemma EscapeLength(s: seq<char>)
    ensures |Escape(s)| == |s| + Matches(s)
  {
    EscapeFromLength(s, 0);
  }

  /**
   * While the output shows no `<`, it is a plain copy of the input:
   * a closing sequence would have put a `<` there.
   */
  lemma {:induction false} CopyWithoutAngle(s: seq<char>, a: nat, m: nat)
    requires a <= |s| && m <= |EscapeFrom(s, a)|
    requires forall q :: 0 <= q < m ==> EscapeFrom(s, a)[q] != '<'
    ensures a + m <= |s|
    ensures EscapeFrom(s, a)[..m] == s[a..a + m]
    decreases m
  {
    if m > 0 {
      var e := EscapeFrom(s, a);
      assert e[0] != '<';
      assert a < |s| && !IsClose(s, a);
      var rest := EscapeFrom(s, a + 1);
      assert e == [s[a]] + rest;
      assert forall q :: 0 <= q < m - 1 ==> rest[q] == e[q + 1];
      CopyWithoutAngle(s, a + 1, m - 1);
      assert e[..m] == [s[a]] + rest[..m - 1];
      assert s[a..a + m] == [s[a]] + s[a + 1..a + m];
    }
  }

  /** The six letters of a "script" word are no `<`. */
  lemma ScriptWordHasNoAngle(t: string, k: nat)
    requires k + 6 <= |t| && ScriptWord(t, k)
    ensures forall j :: k <= j < k + 6 ==> t[j] != '<'
  {
    AngleIsNoLetter('s');
    AngleIsNoLetter('c');
    AngleIsNoLetter('r');
    AngleIsNoLetter('i');
    AngleIsNoLetter('p');
    AngleIsNoLetter('t');
    assert t[k] != '<' && t[k + 1] != '<' && t[k + 2] != '<';
    assert t[k + 3] != '<' && t[k + 4] != '<' && t[k + 5] != '<';
  }

  /** Two windows with the same six characters agree on spelling "script". */
  lemma SameWord(t1: string, k1: nat, t2: string, k2: nat)
    requires k1 + 6 <= |t1| && k2 + 6 <= |t2|
    requires t1[k1..k1 + 6] == t2[k2..k2 + 6]
    ensures ScriptWord(t1, k1) <==> ScriptWord(t2, k2)
  {
    assert t1[k1] == t2[k2] && t1[k1 + 1] == t2[k2 + 1] && t1[k1 + 2] == t2[k2 + 2];
    assert t1[k1 + 3] == t2[k2 + 3] && t1[k1 + 4] == t2[k2 + 4] && t1[k1 + 5] == t2[k2 + 5];
  }

  /** A "script" word at the head of the output was copied from the input. */
  lemma WordCopied(s: seq<char>, a: nat)
    requires a <= |s| && |EscapeFrom(s, a)| >= 6 && ScriptWord(EscapeFrom(s, a), 0)
    ensures a + 6 <= |s| && ScriptWord(s, a)
  {
    var e := EscapeFrom(s, a);
    ScriptWordHasNoAngle(e, 0);
    CopyWithoutAngle(s, a, 6);
    assert e[0..6] == e[..6];
    SameWord(e, 0, s, a);
  }

  /**
   * A copied `<` cannot open a closing sequence in the output: the `/` and
   * the word after it would have been copied from the input, where the
   * same sequence would have been escaped.
   */
  lemma CopiedAngleCloses(s: seq<char>, i: nat)
    requires i < |s| && !IsClose(s, i)
    ensures !IsClose(EscapeFrom(s, i), 0)
  {
    var e := EscapeFrom(s, i);
    var rest := EscapeFrom(s, i + 1);
    assert e == [s[i]] + rest;
    if |e| >= 8 && e[0] == '<' && e[1] == '/' {
      assert rest[0] == '/';
      assert !IsClose(s, i + 1);
      var tail := EscapeFrom(s, i + 2);
      assert rest == [s[i + 1]] + tail;
      assert e[2..8] == tail[0..6];
      SameWord(e, 2, tail, 0);
      if ScriptWord(tail, 0) {
        WordCopied(s, i + 2);
      }
    }
  }

  /** A window inside the tail of a concatenation is a window of the tail. */
  lemma ShiftedClose(front: string, back: string, k: nat)
    requires |front| <= k
    ensures IsClose(front + back, k) <==> IsClose(back, k - |front|)
  {
    var t := front + back;
    if k + 8 <= |t| {
      assert forall j :: k <= j < k + 8 ==> t[j] == back[j - |front|];
    }
  }

  /** No window of the output from input index `i` on holds a closing sequence. */
  lemma {:induction false} NoCloseFrom(s: seq<char>, i: nat)
    requires i <= |s|
    ensures forall k :: 0 <= k < |EscapeFrom(s, i)| ==> !IsClose(EscapeFrom(s, i), k)
    decreases |s| - i
  {
    if i < |s| {
      var e := EscapeFrom(s, i);
      if IsClose(s, i) {
        var piece: string := ['<', '\\', '/'];
        var rest := EscapeFrom(s, i + 2);
        assert e == piece + rest;
        NoCloseFrom(s, i + 2);
        forall k | 0 <= k < |e|
          ensures !IsClose(e, k)
        {
          if k >= 3 {
            ShiftedClose(piece, rest, k);
          } else {
            assert e[k + 1] != '/' || e[k] != '<';
          }
        }
      } else {
        var rest := EscapeFrom(s, i + 1);
        assert e == [s[i]] + rest;
        NoCloseFrom(s, i + 1);
        forall k | 0 <= k < |e|
          ensures !IsClose(e, k)
        {
          if k >= 1 {
            ShiftedClose([s[i]], rest, k);
          } else {
            CopiedAngleCloses(s, i);
          }
        }
      }
    }
  }

  /** The output never holds `<`, `/` and "script" in any letter case. */
  lemma EscapeHasNoClose(s: seq<char>)
    ensures forall k :: 0 <= k < |Escape(s)| ==> !IsClose(Escape(s), k)
    ensures forall k :: 0 <= k < |Escape(s)| ==> !CloseAt(Escape(s), k)
  {
    NoCloseFrom(s, 0);
    forall k | 0 <= k < |Escape(s)|
      ensures !CloseAt(Escape(s), k)
    {
      CloseAtIsClose(Escape(s), k);
    }
  }

  /**
   * Marks the backslashes the escaper inserts: parallel to `EscapeFrom`,
   * true exactly at the `\` written after the `<` of a closing sequence.
   */
  function InsertedFrom(s: seq<char>, i: nat): seq<bool>
    requires i <= |s|
    decreases |s| - i
  {
    if i == |s| then []
    else if IsClose(s, i) then [false, true, false] + InsertedFrom(s, i + 2)
    else [false] + InsertedFrom(s, i + 1)
  }

  /** The characters of `t` whose mark is false. */
  function Keep(t: string, marks: seq<bool>): string
    requires |t| == |marks|
  {
    if |t| == 0 then []
    else (if marks[0] then [] else [t[0]]) + Keep(t[1..], marks[1..])
  }

  lemma {:induction false} KeepAppend(t1: string, m1: seq<bool>, t2: string, m2: seq<bool>)
    requires |t1| == |m1| && |t2| == |m2|
    ensures Keep(t1 + t2, m1 + m2) == Keep(t1, m1) + Keep(t2, m2)
    decreases |t1|
  {
    if |t1| > 0 {
      var t, m := t1 + t2, m1 + m2;
      assert t[0] == t1[0] && m[0] == m1[0];
      assert t[1..] == t1[1..] + t2;
      assert m[1..] == m1[1..] + m2;
      KeepAppend(t1[1..], m1[1..], t2, m2);
      var head := if m1[0] then [] else [t1[0]];
      assert Keep(t, m) == head + Keep(t[1..], m[1..]);
      assert Keep(t1, m1) == head + Keep(t1[1..], m1[1..]);
    } else {
      assert t1 + t2 == t2 && m1 + m2 == m2;
    }
  }

  /** Every inserted mark sits on a `\` that follows a `<` and precedes a `/`. */
  lemma {:induction false} InsertedFromShape(s: seq<char>, i: nat)
    requires i <= |s|
    ensures |InsertedFrom(s, i)| == |EscapeFrom(s, i)|
    ensures forall k :: 0 <= k < |EscapeFrom(s, i)| && InsertedFrom(s, i)[k] ==>
      0 < k < |EscapeFrom(s, i)| - 1 && EscapeFrom(s, i)[k] == '\\' &&
      EscapeFrom(s, i)[k - 1] == '<' && EscapeFrom(s, i)[k + 1] == '/'
    decreases |s| - i
  {
    if i < |s| {
      var e, m := EscapeFrom(s, i), InsertedFrom(s, i);
      if IsClose(s, i) {
        InsertedFromShape(s, i + 2);
        var rest, restMarks := EscapeFrom(s, i + 2), InsertedFrom(s, i + 2);
        assert e == ['<', '\\', '/'] + rest && m == [false, true, false] + restMarks;
        forall k | 0 <= k < |e| && m[k]
          ensures 0 < k < |e| - 1 && e[k] == '\\' && e[k - 1] == '<' && e[k + 1] == '/'
        {
          if k >= 3 {
            assert restMarks[k - 3];
          }
        }
      } else {
        InsertedFromShape(s, i + 1);
        var rest, restMarks := EscapeFrom(s, i + 1), InsertedFrom(s, i + 1);
        assert e == [s[i]] + rest && m == [false] + restMarks;
        forall k | 0 <= k < |e| && m[k]
          ensures 0 < k < |e| - 1 && e[k] == '\\' && e[k - 1] == '<' && e[k + 1] == '/'
        {
          assert restMarks[k - 1];
        }
      }
    }
  }

  /** Deleting the marked characters gives back the input, letter case kept. */
  lemma {:induction false} KeepInsertedFrom(s: seq<char>, i: nat)
    requires i <= |s|
    ensures |InsertedFrom(s, i)| == |EscapeFrom(s, i)|
    ensures Keep(EscapeFrom(s, i), InsertedFrom(s, i)) == s[i..]
    decreases |s| - i
  {
    if i < |s| {
      if IsClose(s, i) {
        KeepInsertedFrom(s, i + 2);
        var rest, restMarks := EscapeFrom(s, i + 2), InsertedFrom(s, i + 2);
        KeepAppend(['<', '\\', '/'], [false, true, false], rest, restMarks);
        assert Keep(['<', '\\', '/'], [false, true, false]) == ['<', '/'];
        assert s[i..] == [s[i], s[i + 1]] + s[i + 2..];
      } else {
        KeepInsertedFrom(s, i + 1);
        var rest, restMarks := EscapeFrom(s, i + 1), InsertedFrom(s, i + 1);
        KeepAppend([s[i]], [false], rest, restMarks);
        assert s[i..] == [s[i]] + s[i + 1..];
      }
    }
  }

  /**
   * Removing the backslashes the escaper inserted, each right after the `<`
   * of a matched sequence, reproduces the input exactly.
   */
  lemma RemoveInserted(s: seq<char>)
    ensures |InsertedFrom(s, 0)| == |Escape(s)|
    ensures Keep(Escape(s), InsertedFrom(s, 0)) == s
    ensures forall k :: 0 <= k < |Escape(s)| && InsertedFrom(s, 0)[k] ==>
      0 < k < |Escape(s)| - 1 && Escape(s)[k] == '\\' && Escape(s)[k - 1] == '<' && Escape(s)[k + 1] == '/'
  {
    InsertedFromShape(s, 0);
    KeepInsertedFrom(s, 0);
    assert s[0..] == s;
  }

  lemma {:induction false} UnchangedFrom(s: seq<char>, i: nat)
    requires i <= |s| && MatchesFrom(s, i) == 0
    ensures EscapeFrom(s, i) == s[i..]
    decreases |s| - i
  {
    if i < |s| {
      UnchangedFrom(s, i + 1);
      assert s[i..] == [s[i]] + s[i + 1..];
    }
  }

  /** Input without a closing sequence is copied unchanged, and only such input is. */
  lemma EscapeUnchanged(s: seq<char>)
    ensures Escape(s) == s <==> Matches(s) == 0
  {
    EscapeLength(s);
    if Matches(s) == 0 {
      UnchangedFrom(s, 0);
      assert s[0..] == s;
    }
  }
}
