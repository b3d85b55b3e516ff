/**
 * The file-call handlers of kui/src/filesystem.c:41-209: `__fs_open`,
 * `__fs_read`, `__fs_write`, `__fs_seek` and `__fs_close`. They run over
 * the handle table and the open streams.
 *
 * The JSON request arrives here already parsed. It is `None` when parsing
 * failed or there is no argument at index 0, and otherwise the argument
 * object's fields. A field lookup that the source dereferences without a
 * NULL check gives the outcome `Crash`. The operating system's side is a
 * set of parameters:
 * - what `fopen` yields;
 * - whether `malloc` succeeds;
 * - how many bytes `fwrite` accepts;
 * - the decoder behind `kui_b64_decode`.
 */
module FileCalls {
  import opened Wrappers
  import opened Handles
  import Base64

  type Byte = Base64.Byte

  /** The default read size of line 82 and the cap of line 90. */
  const DefaultMax: nat := 64 * 1024
  const MaxRead: nat := 4 * 1024 * 1024

  /** A stdio stream: its file contents and its position, which a seek may put past the end. */
  datatype Stream = Stream(data: seq<Byte>, pos: nat)

  /** A field of the argument object, as far as the handlers look at it. */
  datatype Field = Str(s: string) | Num(n: int) | Other

  type Request = Option<map<string, Field>>

  /** What a successful call reports: `{handle}`, `{b64, n}`, `{n}`, `{pos}` and `{ok:true}`. */
  datatype Payload = Handle(h: nat) | Chunk(b64: string, n: nat) | Written(n: nat) | Position(pos: nat) | Closed

  /** A reply with status 0 (`Ok`) or 1 (`Err` with its `error` string). */
  datatype Reply = Ok(payload: Payload) | Err(error: string)

  datatype Outcome = Replied(reply: Reply) | Crash

  // ---------------------------------------------------------------------
  // Arguments
  // ---------------------------------------------------------------------

  /** `valueint` (and `valuedouble`): the number, or 0 for a field that is not a number. */
  function ValueInt(f: Field): int
  {
    if f.Num? then f.n else 0
  }

  /** `valuestring`: the text, or NULL for a field that is not a string. */
  function ValueString(f: Field): Option<string>
  {
    if f.Str? then Some(f.s) else None
  }

  /** Looking `key` up does not dereference NULL: no argument object at all, or the key is there. */
  predicate Has(req: Request, key: string)
  {
    req.None? || key in req.value
  }

  /** `a ? item(a, key)->valueint : 0`. */
  function IntArg(req: Request, key: string): int
    requires Has(req, key)
  {
    if req.None? then 0 else ValueInt(req.value[key])
  }

  /** `a ? item(a, key)->valuestring : NULL`. */
  function StrArg(req: Request, key: string): Option<string>
    requires Has(req, key)
  {
    if req.None? then None else ValueString(req.value[key])
  }

  /** The requested read size before the cap: `max` when present, 65536 otherwise (lines 80-82). */
  function MaxArg(req: Request): int
  {
    if req.Some? && "max" in req.value then ValueInt(req.value["max"]) else DefaultMax
  }

  // ---------------------------------------------------------------------
  // Streams
  // ---------------------------------------------------------------------

  function Remaining(s: Stream): nat
  {
    if s.pos < |s.data| then |s.data| - s.pos else 0
  }

  /** `fread(buf, 1, max, fp)`: up to `max` bytes from the position, which advances past them. */
  function ReadAt(s: Stream, max: nat): (r: (seq<Byte>, Stream))
    ensures |r.0| <= max && |r.0| <= Remaining(s)
    ensures r.1 == s.(pos := s.pos + |r.0|)
    ensures |r.0| == max || |r.0| == Remaining(s)
    ensures s.pos + |r.0| <= |s.data| ==> r.0 == s.data[s.pos..s.pos + |r.0|]
  {
    var n := if max < Remaining(s) then max else Remaining(s);
    (if n == 0 then [] else s.data[s.pos..s.pos + n], s.(pos := s.pos + n))
  }

  /**
   * `fwrite` of `w` at the position: the bytes replace what was there, a
   * gap left by a seek past the end reads as zeros, and the position
   * advances past them.
   */
  function WriteAt(s: Stream, w: seq<Byte>): Stream
  {
    var front := if s.pos <= |s.data| then s.data[..s.pos] else s.data + seq(s.pos - |s.data|, _ => 0);
    var back := if s.pos + |w| < |s.data| then s.data[s.pos + |w|..] else [];
    Stream(front + w + back, s.pos + |w|)
  }

  /** `fseeko(fp, off, whence)`: SEEK_SET, SEEK_CUR or SEEK_END, failing on any other whence and on a negative target. */
  function SeekTo(s: Stream, off: int, whence: int): (p: Option<nat>)
    ensures p.Some? ==> 0 <= whence <= 2
  {
    var base := if whence == 0 then 0 else if whence == 1 then s.pos else |s.data|;
    if whence < 0 || whence > 2 || base + off < 0 then None else Some(base + off)
  }

  /** Bytes written and then read back from the same place are the bytes written. */
  lemma WriteThenRead(s: Stream, w: seq<Byte>)
    ensures var t := WriteAt(s, w);
      t.pos == s.pos + |w| && |t.data| >= t.pos &&
      ReadAt(t.(pos := s.pos), |w|) == (w, t)
  {
    var t := WriteAt(s, w);
    var front := if s.pos <= |s.data| then s.data[..s.pos] else s.data + seq(s.pos - |s.data|, _ => 0);
    assert |front| == s.pos;
    assert t.data[s.pos..s.pos + |w|] == w;
  }

  /**
   * What `fwrite` leaves in the file: the bytes before the position and
   * those after the written ones are kept, a gap past the old end reads as
   * zeros, and the file grows only as far as the write reaches.
   */
  lemma WriteAtFrame(s: Stream, w: seq<Byte>)
    ensures var t := WriteAt(s, w);
      t.pos == s.pos + |w| &&
      |t.data| == (if s.pos + |w| > |s.data| then s.pos + |w| else |s.data|) &&
      t.data[s.pos..s.pos + |w|] == w &&
      (forall k :: 0 <= k < |s.data| && (k < s.pos || s.pos + |w| <= k) ==> t.data[k] == s.data[k]) &&
      (forall k :: |s.data| <= k < s.pos ==> t.data[k] == 0)
  {
    var front := if s.pos <= |s.data| then s.data[..s.pos] else s.data + seq(s.pos - |s.data|, _ => 0);
    var back := if s.pos + |w| < |s.data| then s.data[s.pos + |w|..] else [];
    var t := WriteAt(s, w);
    assert t.data == front + w + back;
    assert |front| == s.pos;
    forall k | 0 <= k < |s.data| && (k < s.pos || s.pos + |w| <= k)
      ensures t.data[k] == s.data[k]
    {
      if k < s.pos {
        assert t.data[k] == front[k];
      } else {
        assert t.data[k] == back[k - s.pos - |w|];
      }
    }
    forall k | |s.data| <= k < s.pos
      ensures t.data[k] == 0
    {
      assert t.data[k] == front[k];
    }
  }

  // ---------------------------------------------------------------------
  // The handlers on values
  // ---------------------------------------------------------------------

  /**
   * The handle table, the open streams by identity, and the identity the
   * next `fopen` hands out.
   */
  datatype World = World(slots: seq<Slot>, streams: map<nat, Stream>, nextId: nat)

  /** Whether some live handle holds stream `id`. */
  ghost predicate Held(slots: seq<Slot>, id: nat)
    requires |slots| == Capacity
  {
    exists h :: InRange(h) && slots[h] == Slot(true, Some(id))
  }

  /** Every handle `get_fp` resolves names an open stream. */
  ghost predicate Resolvable(w: World)
  {
    |w.slots| == Capacity &&
    forall h :: Lookup(w.slots, h).Some? ==> Lookup(w.slots, h).value in w.streams
  }

  /** No two live handles hold the same stream. */
  ghost predicate Distinct(slots: seq<Slot>)
    requires |slots| == Capacity
  {
    forall h, g :: InRange(h) && InRange(g) && slots[h].inUse && slots[g].inUse && slots[h].fp == slots[g].fp ==> h == g
  }

  /**
   * What the handlers keep true: the table's own invariant, every live
   * handle holds an open stream, no two live handles hold the same one, and
   * every open stream is held by a live handle (none leaks) and is older
   * than the next identity `fopen` hands out.
   */
  ghost predicate WorldOk(w: World)
  {
    TableOk(w.slots) && Resolvable(w) && Distinct(w.slots) &&
    (forall h :: InRange(h) && w.slots[h].inUse ==> w.slots[h].fp.Some?) &&
    (forall id :: id in w.streams ==> id < w.nextId && Held(w.slots, id))
  }

  /** `w2` differs from `w` at most in the contents and position of stream `id`. */
  predicate OnlyStreamChanged(w: World, w2: World, id: nat)
  {
    w2.slots == w.slots && w2.nextId == w.nextId && w2.streams.Keys == w.streams.Keys &&
    forall g :: g in w.streams && g != id ==> w2.streams[g] == w.streams[g]
  }

  function EmptyWorld(): (w: World)
    ensures WorldOk(w)
  {
    World(EmptyTable(), map[], 0)
  }

  /** `__fs_open`, with `fopened` the contents of what `fopen(path, mode)` opened, or `None` when it failed. */
  function OpenSpec(w: World, req: Request, fopened: Option<seq<Byte>>): (World, Outcome)
    requires Resolvable(w)
  {
    if !Has(req, "path") || !Has(req, "mode") then (w, Crash)
    else if StrArg(req, "path").None? then (w, Replied(Err("missing path")))
    else if fopened.None? then (w, Replied(Err("open failed")))
    else
      var (w', h) := AdmitSpec(w, fopened.value);
      (w', Replied(if h == 0 then Err("too many open files") else Ok(Handle(h))))
  }

  /**
   * After a successful `fopen` (lines 59-65): the stream gets the next
   * identity and the lowest free handle, or is closed again, leaving the
   * table and the open streams as they were, when no handle is free.
   */
  function AdmitSpec(w: World, contents: seq<Byte>): (World, nat)
    requires |w.slots| == Capacity
  {
    var (slots, h) := AllocStep(w.slots);
    if h == 0 then (w.(nextId := w.nextId + 1), 0)
    else (World(slots[h := Slot(true, Some(w.nextId))], w.streams[w.nextId := Stream(contents, 0)], w.nextId + 1), h)
  }

  /** `__fs_read`, with `bufOk` and `b64Ok` whether the chunk buffer and the encoder's buffer were allocated. */
  function ReadSpec(w: World, req: Request, bufOk: bool, b64Ok: bool): (World, Outcome)
    requires Resolvable(w)
  {
    if !Has(req, "handle") || MaxArg(req) < 0 then (w, Crash)
    else ReadHandle(w, IntArg(req, "handle"), MaxArg(req), bufOk, b64Ok)
  }

  /** `__fs_read` once its arguments are read: the handle and the requested size. */
  function ReadHandle(w: World, h: int, want: nat, bufOk: bool, b64Ok: bool): (World, Outcome)
    requires Resolvable(w)
  {
    match Lookup(w.slots, h)
    case None => (w, Replied(Err("bad handle")))
    case Some(fp) =>
      var max := if want > MaxRead then MaxRead else want;
      if !bufOk then (w, Replied(Err("oom")))
      else
        var (bytes, s) := ReadAt(w.streams[fp], max);
        var w' := w.(streams := w.streams[fp := s]);
        if !b64Ok then (w', Replied(Err("b64 fail")))
        else (w', Replied(Ok(Chunk(Base64.AsWritten(bytes), |bytes|))))
  }

  /** `__fs_write`, with `decode` for `kui_b64_decode` and `room` the most bytes `fwrite` accepts. */
  function WriteSpec(w: World, req: Request, decode: string -> Option<seq<Byte>>, room: nat): (World, Outcome)
    requires Resolvable(w)
  {
    if !Has(req, "handle") || !Has(req, "b64") then (w, Crash)
    else
      var fp, b64 := Lookup(w.slots, IntArg(req, "handle")), StrArg(req, "b64");
      if fp.None? || b64.None? then (w, Replied(Err("args")))
      else
        match decode(b64.value)
        case None => (w, Replied(Err("b64 decode")))
        case Some(bytes) =>
          var n := if |bytes| < room then |bytes| else room;
          (w.(streams := w.streams[fp.value := WriteAt(w.streams[fp.value], bytes[..n])]), Replied(Ok(Written(n))))
  }

  /** `__fs_seek`: the new position as `tell64` reports it. */
  function SeekSpec(w: World, req: Request): (World, Outcome)
    requires Resolvable(w)
  {
    if !Has(req, "handle") || !Has(req, "offset") || !Has(req, "whence") then (w, Crash)
    else
      match Lookup(w.slots, IntArg(req, "handle"))
      case None => (w, Replied(Err("seek")))
      case Some(fp) =>
        var s := w.streams[fp];
        match SeekTo(s, IntArg(req, "offset"), IntArg(req, "whence"))
        case None => (w, Replied(Err("seek")))
        case Some(p) => (w.(streams := w.streams[fp := s.(pos := p)]), Replied(Ok(Position(p))))
  }

  /** `__fs_close`: closes the stream and frees the handle. */
  function CloseSpec(w: World, req: Request): (World, Outcome)
    requires Resolvable(w)
  {
    if !Has(req, "handle") then (w, Crash)
    else
      var h := IntArg(req, "handle");
      match Lookup(w.slots, h)
      case None => (w, Replied(Err("bad handle")))
      case Some(fp) => (World(FreeStep(w.slots, h), w.streams - {fp}, w.nextId), Replied(Ok(Closed)))
  }

  // ---------------------------------------------------------------------
  // The invariant is kept
  // ---------------------------------------------------------------------

  /** Replacing one open stream's contents or position keeps the invariant. */
  lemma UpdateStreamKeeps(w: World, fp: nat, s: Stream)
    requires WorldOk(w) && fp in w.streams
    ensures WorldOk(w.(streams := w.streams[fp := s]))
  {
    var w' := w.(streams := w.streams[fp := s]);
    assert w'.streams.Keys == w.streams.Keys;
  }

  lemma OpenKeepsWorld(w: World, req: Request, fopened: Option<seq<Byte>>)
    requires WorldOk(w)
    ensures WorldOk(OpenSpec(w, req, fopened).0)
  {
    if Has(req, "path") && Has(req, "mode") && StrArg(req, "path").Some? && fopened.Some? {
      AllocOnlyMarks(w.slots);
      var h := AllocStep(w.slots).1;
      if h != 0 {
        var id := w.nextId;
        var w' := OpenSpec(w, req, fopened).0;
        assert w'.slots == w.slots[h := Slot(true, Some(id))];
        assert w'.streams == w.streams[id := Stream(fopened.value, 0)];
        assert id !in w.streams;
        forall g | g != h && InRange(g) && w.slots[g].inUse
          ensures w'.slots[g] == w.slots[g] && w.slots[g].fp.value in w.streams && w.slots[g].fp != Some(id)
        {
          assert Lookup(w.slots, g) == w.slots[g].fp;
        }
        forall g | Lookup(w'.slots, g).Some?
          ensures Lookup(w'.slots, g).value in w'.streams
        {
        }
        forall i | i in w'.streams
          ensures i < w'.nextId && Held(w'.slots, i)
        {
          if i != id {
            var g :| InRange(g) && w.slots[g] == Slot(true, Some(i));
            assert w'.slots[g] == w.slots[g];
          } else {
            assert w'.slots[h] == Slot(true, Some(i));
          }
        }
      }
    }
  }

  lemma CloseKeepsWorld(w: World, req: Request)
    requires WorldOk(w)
    ensures WorldOk(CloseSpec(w, req).0)
  {
    if Has(req, "handle") {
      var h := IntArg(req, "handle");
      if Lookup(w.slots, h).Some? {
        var fp := Lookup(w.slots, h).value;
        var w' := CloseSpec(w, req).0;
        FreeOnlyClears(w.slots, h);
        assert w'.slots == w.slots[h := Empty];
        forall g | Lookup(w'.slots, g).Some?
          ensures Lookup(w'.slots, g).value in w'.streams
        {
          assert g != h && Lookup(w'.slots, g) == Lookup(w.slots, g);
        }
        forall i | i in w'.streams
          ensures i < w'.nextId && Held(w'.slots, i)
        {
          var g :| InRange(g) && w.slots[g] == Slot(true, Some(i));
          assert g != h;
          assert w'.slots[g] == w.slots[g];
        }
      }
    }
  }

  /** Read, write and seek change at most one stream's contents and position, never the table. */
  lemma ReadKeepsWorld(w: World, req: Request, bufOk: bool, b64Ok: bool)
    requires WorldOk(w)
    ensures var r := ReadSpec(w, req, bufOk, b64Ok).0; r.slots == w.slots && WorldOk(r)
  {
    if Has(req, "handle") && MaxArg(req) >= 0 {
      ReadHandleKeepsWorld(w, IntArg(req, "handle"), MaxArg(req), bufOk, b64Ok);
    }
  }

  lemma ReadHandleKeepsWorld(w: World, h: int, want: nat, bufOk: bool, b64Ok: bool)
    requires WorldOk(w)
    ensures var r := ReadHandle(w, h, want, bufOk, b64Ok).0; r.slots == w.slots && WorldOk(r)
  {
    if Lookup(w.slots, h).Some? && bufOk {
      var fp := Lookup(w.slots, h).value;
      var max := if want > MaxRead then MaxRead else want;
      UpdateStreamKeeps(w, fp, ReadAt(w.streams[fp], max).1);
    }
  }

  lemma WriteKeepsWorld(w: World, req: Request, decode: string -> Option<seq<Byte>>, room: nat)
    requires WorldOk(w)
    ensures var r := WriteSpec(w, req, decode, room).0; r.slots == w.slots && WorldOk(r)
  {
    if Has(req, "handle") && Has(req, "b64") {
      var fp, b64 := Lookup(w.slots, IntArg(req, "handle")), StrArg(req, "b64");
      if fp.Some? && b64.Some? && decode(b64.value).Some? {
        var bytes := decode(b64.value).value;
        var n := if |bytes| < room then |bytes| else room;
        UpdateStreamKeeps(w, fp.value, WriteAt(w.streams[fp.value], bytes[..n]));
      }
    }
  }

  lemma SeekKeepsWorld(w: World, req: Request)
    requires WorldOk(w)
    ensures var r := SeekSpec(w, req).0; r.slots == w.slots && WorldOk(r)
  {
    if Has(req, "handle") && Has(req, "offset") && Has(req, "whence") && Lookup(w.slots, IntArg(req, "handle")).Some? {
      var fp := Lookup(w.slots, IntArg(req, "handle")).value;
      var s := w.streams[fp];
      var p := SeekTo(s, IntArg(req, "offset"), IntArg(req, "whence"));
      if p.Some? {
        UpdateStreamKeeps(w, fp, s.(pos := p.value));
      }
    }
  }

  // ---------------------------------------------------------------------
  // What each handler reports
  // ---------------------------------------------------------------------

  /**
   * Open: a failed `fopen` reports `open failed`; a full table reports `too
   * many open files` with the stream closed again and no slot changed; on
   * success the lowest free handle is returned and resolves to the new
   * stream, at position 0.
   */
  lemma OpenReports(w: World, req: Request, fopened: Option<seq<Byte>>)
    requires WorldOk(w) && Has(req, "path") && Has(req, "mode") && StrArg(req, "path").Some?
    ensures var (w', out) := OpenSpec(w, req, fopened);
      (fopened.None? ==> out == Replied(Err("open failed")) && w' == w) &&
      (fopened.Some? && FirstFree(w.slots) == 0 ==>
         out == Replied(Err("too many open files")) && w'.slots == w.slots && w'.streams == w.streams) &&
      (fopened.Some? && FirstFree(w.slots) != 0 ==>
         var h := FirstFree(w.slots);
         out == Replied(Ok(Handle(h))) && InRange(h) && !w.slots[h].inUse &&
         Lookup(w'.slots, h) == Some(w.nextId) && w'.streams[w.nextId] == Stream(fopened.value, 0) &&
         w.nextId !in w.streams &&
         (forall g :: g != h ==> Lookup(w'.slots, g) == Lookup(w.slots, g)))
  {
    FirstFreeIsLowest(w.slots);
  }

  /** A request whose `path` is not a string, or that has no argument object, reports `missing path`. */
  lemma OpenMissingPath(w: World, req: Request, fopened: Option<seq<Byte>>)
    requires WorldOk(w)
    ensures (req.None? || (Has(req, "mode") && "path" in req.value && !req.value["path"].Str?)) <==>
      OpenSpec(w, req, fopened) == (w, Replied(Err("missing path")))
  {
  }

  /** Read: a dead handle reports `bad handle` and changes nothing. */
  lemma ReadReports(w: World, h: int, want: nat, bufOk: bool, b64Ok: bool)
    requires Resolvable(w)
    ensures var (w', out) := ReadHandle(w, h, want, bufOk, b64Ok);
      (Lookup(w.slots, h).None? <==> out == Replied(Err("bad handle"))) &&
      (Lookup(w.slots, h).None? ==> w' == w)
  {
  }

  /**
   * A read on a live handle with both buffers allocated replies with
   * exactly the bytes at the position, as many as requested capped at 4 MiB
   * and at what remains, encoded as `kui_b64_encode` writes them; an empty
   * chunk is a success. `Base64.AsWrittenDecodes` says when that text
   * decodes back to those bytes.
   */
  lemma ReadReturnsChunk(w: World, h: int, want: nat)
    requires Resolvable(w) && Lookup(w.slots, h).Some?
    ensures var (w', out) := ReadHandle(w, h, want, true, true);
      var fp := Lookup(w.slots, h).value;
      var s := w.streams[fp];
      var max := if want > MaxRead then MaxRead else want;
      var n := if Remaining(s) < max then Remaining(s) else max;
      n <= MaxRead && (n == max || n == Remaining(s)) &&
      out == Replied(Ok(Chunk(if n == 0 then [] else Base64.AsWritten(s.data[s.pos..s.pos + n]), n))) &&
      (n == 0 <==> out.reply.payload.b64 == []) &&
      w'.streams[fp] == s.(pos := s.pos + n) && OnlyStreamChanged(w, w', fp)
  {
    var fp := Lookup(w.slots, h).value;
    var max := if want > MaxRead then MaxRead else want;
    ReadHandleLive(w, h, fp, want);
    var (bytes, s') := ReadAt(w.streams[fp], max);
    ReadAtSlice(w.streams[fp], max);
    StreamUpdateFrame(w, fp, s');
    Base64.AsWrittenLength(bytes);
  }

  /** `ReadHandle` on a live handle with both buffers allocated. */
  lemma ReadHandleLive(w: World, h: int, fp: nat, want: nat)
    requires Resolvable(w) && Lookup(w.slots, h) == Some(fp)
    ensures fp in w.streams
    ensures var (bytes, s') := ReadAt(w.streams[fp], if want > MaxRead then MaxRead else want);
      ReadHandle(w, h, want, true, true) == (w.(streams := w.streams[fp := s']), Replied(Ok(Chunk(Base64.AsWritten(bytes), |bytes|))))
  {
  }

  /** The bytes `ReadAt` returns, as a slice of the contents. */
  lemma ReadAtSlice(s: Stream, max: nat)
    ensures var n := if Remaining(s) < max then Remaining(s) else max;
      |ReadAt(s, max).0| == n && ReadAt(s, max).1 == s.(pos := s.pos + n) &&
      ReadAt(s, max).0 == (if n == 0 then [] else s.data[s.pos..s.pos + n])
  {
  }

  /** Replacing one stream changes nothing else. */
  lemma StreamUpdateFrame(w: World, fp: nat, s: Stream)
    requires fp in w.streams
    ensures OnlyStreamChanged(w, w.(streams := w.streams[fp := s]), fp)
  {
  }

  /**
   * Write: a dead handle or a missing `b64` reports `args`, a failed decode
   * reports `b64 decode`, and otherwise the count `fwrite` accepted is
   * reported, short or not, with those bytes now in the file.
   */
  lemma WriteReports(w: World, req: Request, decode: string -> Option<seq<Byte>>, room: nat)
    requires WorldOk(w) && Has(req, "handle") && Has(req, "b64")
    ensures var (w', out) := WriteSpec(w, req, decode, room);
      var fp, b64 := Lookup(w.slots, IntArg(req, "handle")), StrArg(req, "b64");
      ((fp.None? || b64.None?) <==> out == Replied(Err("args"))) &&
      ((fp.None? || b64.None?) ==> w' == w) &&
      (fp.Some? && b64.Some? && decode(b64.value).None? ==> out == Replied(Err("b64 decode")) && w' == w) &&
      (fp.Some? && b64.Some? && decode(b64.value).Some? ==>
         var bytes := decode(b64.value).value;
         var n := if |bytes| < room then |bytes| else room;
         var s, t := w.streams[fp.value], w'.streams[fp.value];
         out == Replied(Ok(Written(n))) && n <= |bytes| && n <= room &&
         OnlyStreamChanged(w, w', fp.value) && t == WriteAt(s, bytes[..n]) &&
         t.pos == s.pos + n && ReadAt(t.(pos := s.pos), n).0 == bytes[..n] &&
         |t.data| == (if s.pos + n > |s.data| then s.pos + n else |s.data|) &&
         (forall k :: 0 <= k < |s.data| && (k < s.pos || s.pos + n <= k) ==> t.data[k] == s.data[k]) &&
         (forall k :: |s.data| <= k < s.pos ==> t.data[k] == 0))
  {
    var fp, b64 := Lookup(w.slots, IntArg(req, "handle")), StrArg(req, "b64");
    if fp.Some? && b64.Some? && decode(b64.value).Some? {
      var bytes := decode(b64.value).value;
      var n := if |bytes| < room then |bytes| else room;
      WriteThenRead(w.streams[fp.value], bytes[..n]);
      WriteAtFrame(w.streams[fp.value], bytes[..n]);
    }
  }

  /**
   * Seek: a dead handle or a failed seek reports `seek`; otherwise the new
   * position is reported. The handle table is unchanged either way.
   */
  lemma SeekReports(w: World, req: Request)
    requires WorldOk(w) && Has(req, "handle") && Has(req, "offset") && Has(req, "whence")
    ensures var (w', out) := SeekSpec(w, req);
      var fp := Lookup(w.slots, IntArg(req, "handle"));
      w'.slots == w.slots &&
      (fp.None? ==> out == Replied(Err("seek")) && w' == w) &&
      (fp.Some? ==>
         var s := w.streams[fp.value];
         var p := SeekTo(s, IntArg(req, "offset"), IntArg(req, "whence"));
         (p.None? <==> out == Replied(Err("seek"))) &&
         (p.None? ==> w' == w) &&
         (p.Some? ==>
            out == Replied(Ok(Position(p.value))) &&
            w'.streams[fp.value] == s.(pos := p.value) && OnlyStreamChanged(w, w', fp.value)))
  {
  }

  /**
   * Close: on a live handle the stream is closed and the handle freed;
   * closing the same handle again reports `bad handle` and changes nothing.
   */
  lemma CloseTwice(w: World, req: Request)
    requires WorldOk(w) && Has(req, "handle") && Lookup(w.slots, IntArg(req, "handle")).Some?
    ensures var (w', out) := CloseSpec(w, req);
      var h, fp := IntArg(req, "handle"), Lookup(w.slots, IntArg(req, "handle")).value;
      out == Replied(Ok(Closed)) && WorldOk(w') &&
      Lookup(w'.slots, h) == None && fp !in w'.streams &&
      CloseSpec(w', req) == (w', Replied(Err("bad handle")))
  {
    CloseKeepsWorld(w, req);
    LookupAfterFree(w.slots, IntArg(req, "handle"), 0);
  }

  // ---------------------------------------------------------------------
  // The handlers in place
  // ---------------------------------------------------------------------

  /** The global table and the process's open streams, changed in place by the handlers. */
  class FileBridge {
    const table: HandleTable
    var streams: map<nat, Stream>
    var nextId: nat

    function State(): World
      reads this, table, table.slots
    {
      World(table.slots[..], streams, nextId)
    }

    ghost predicate Valid()
      reads this, table, table.slots
    {
      WorldOk(State())
    }

    constructor ()
      ensures Valid() && State() == EmptyWorld() && fresh(table) && fresh(table.slots)
    {
      table := new HandleTable();
      streams := map[];
      nextId := 0;
    }

    method Open(req: Request, fopened: Option<seq<Byte>>) returns (out: Outcome)
      requires Valid()
      modifies this, table.slots
      ensures Valid()
      ensures (State(), out) == OpenSpec(old(State()), req, fopened)
    {
      OpenKeepsWorld(State(), req, fopened);
      if req.Some? && ("path" !in req.value || "mode" !in req.value) {
        return Crash;
      }
      var path := StrArg(req, "path");
      if path.None? {
        return Replied(Err("missing path"));
      }
      if fopened.None? {
        return Replied(Err("open failed"));
      }
      var h := Admit(fopened.value);
      if h == 0 {
        return Replied(Err("too many open files"));
      }
      out := Replied(Ok(Handle(h)));
    }

    /** Lines 59-65: the stream is registered, then a handle is taken for it, or it is closed again. */
    method Admit(contents: seq<Byte>) returns (h: nat)
      requires table.Valid() && nextId !in streams
      modifies this, table.slots
      ensures (State(), h) == AdmitSpec(old(State()), contents)
    {
      ghost var w := State();
      var fp := nextId;
      nextId := nextId + 1;
      streams := streams[fp := Stream(contents, 0)];
      h := table.Alloc();
      if h == 0 {
        streams := streams - {fp};
        assert streams == w.streams;
        return;
      }
      table.SetFp(h, fp);
    }

    method Read(req: Request, bufOk: bool, b64Ok: bool) returns (out: Outcome)
      requires Valid()
      modifies this
      ensures Valid()
      ensures (State(), out) == ReadSpec(old(State()), req, bufOk, b64Ok)
    {
      ReadKeepsWorld(State(), req, bufOk, b64Ok);
      if req.Some? && "handle" !in req.value {
        return Crash;
      }
      var h := IntArg(req, "handle");
      var max := MaxArg(req);
      if max < 0 {
        return Crash;
      }
      var fp := table.GetFp(h);
      if fp.None? {
        return Replied(Err("bad handle"));
      }
      if max > MaxRead {
        max := MaxRead;
      }
      if !bufOk {
        return Replied(Err("oom"));
      }
      var (bytes, s) := ReadAt(streams[fp.value], max);
      streams := streams[fp.value := s];
      if !b64Ok {
        return Replied(Err("b64 fail"));
      }
      var buf := Base64.EncodeAsWritten(bytes);
      out := Replied(Ok(Chunk(buf[..buf.Length - 1], |bytes|)));
    }

    method Write(req: Request, decode: string -> Option<seq<Byte>>, room: nat) returns (out: Outcome)
      requires Valid()
      modifies this
      ensures Valid()
      ensures (State(), out) == WriteSpec(old(State()), req, decode, room)
    {
      WriteKeepsWorld(State(), req, decode, room);
      if req.Some? && ("handle" !in req.value || "b64" !in req.value) {
        return Crash;
      }
      var fp := table.GetFp(IntArg(req, "handle"));
      var b64 := StrArg(req, "b64");
      if fp.None? || b64.None? {
        return Replied(Err("args"));
      }
      var bytes := decode(b64.value);
      if bytes.None? {
        return Replied(Err("b64 decode"));
      }
      var n := if |bytes.value| < room then |bytes.value| else room;
      streams := streams[fp.value := WriteAt(streams[fp.value], bytes.value[..n])];
      out := Replied(Ok(Written(n)));
    }

    method Seek(req: Request) returns (out: Outcome)
      requires Valid()
      modifies this
      ensures Valid()
      ensures (State(), out) == SeekSpec(old(State()), req)
    {
      SeekKeepsWorld(State(), req);
      if req.Some? && ("handle" !in req.value || "offset" !in req.value || "whence" !in req.value) {
        return Crash;
      }
      var fp := table.GetFp(IntArg(req, "handle"));
      if fp.None? {
        return Replied(Err("seek"));
      }
      var s := streams[fp.value];
      var p := SeekTo(s, IntArg(req, "offset"), IntArg(req, "whence"));
      if p.None? {
        return Replied(Err("seek"));
      }
      streams := streams[fp.value := s.(pos := p.value)];
      out := Replied(Ok(Position(p.value)));
    }

    method Close(req: Request) returns (out: Outcome)
      requires Valid()
      modifies this, table.slots
      ensures Valid()
      ensures (State(), out) == CloseSpec(old(State()), req)
    {
      CloseKeepsWorld(State(), req);
      if req.Some? && "handle" !in req.value {
        return Crash;
      }
      var h := IntArg(req, "handle");
      var fp := table.GetFp(h);
      if fp.None? {
        return Replied(Err("bad handle"));
      }
      streams := streams - {fp.value};
      table.Free(h);
      out := Replied(Ok(Closed));
    }
  }

  // ---------------------------------------------------------------------
  // A session
  // ---------------------------------------------------------------------

  function HandleRequest(h: int): Request
  {
    Some(map["handle" := Num(h)])
  }

  function WriteRequest(h: int, text: string): Request
  {
    Some(map["handle" := Num(h), "b64" := Str(text)])
  }

  function SeekRequest(h: int, off: int, whence: int): Request
  {
    Some(map["handle" := Num(h), "offset" := Num(off), "whence" := Num(whence)])
  }

  function ReadRequest(h: int, max: int): Request
  {
    Some(map["handle" := Num(h), "max" := Num(max)])
  }

  lemma RequestFields(h: int, text: string, off: int, whence: int, max: int)
    ensures Has(HandleRequest(h), "handle") && IntArg(HandleRequest(h), "handle") == h && MaxArg(HandleRequest(h)) == DefaultMax
    ensures Has(WriteRequest(h, text), "handle") && IntArg(WriteRequest(h, text), "handle") == h
    ensures Has(WriteRequest(h, text), "b64") && StrArg(WriteRequest(h, text), "b64") == Some(text)
    ensures Has(SeekRequest(h, off, whence), "handle") && IntArg(SeekRequest(h, off, whence), "handle") == h
    ensures Has(SeekRequest(h, off, whence), "offset") && IntArg(SeekRequest(h, off, whence), "offset") == off
    ensures Has(SeekRequest(h, off, whence), "whence") && IntArg(SeekRequest(h, off, whence), "whence") == whence
    ensures Has(ReadRequest(h, max), "handle") && IntArg(ReadRequest(h, max), "handle") == h && MaxArg(ReadRequest(h, max)) == max
  {
    assert "b64" != "handle" && "offset" != "handle" && "whence" != "handle" && "whence" != "offset";
    assert "max" != "handle";
  }

  /** Open with mode `w+b`, which truncates, on the empty table hands out handle 1 for an empty stream 0. */
  lemma OpenFirst()
    ensures var (w, out) := OpenSpec(EmptyWorld(), Some(map["path" := Str("notes.txt"), "mode" := Str("w+b")]), Some([]));
      out == Replied(Ok(Handle(1))) && WorldOk(w) && Lookup(w.slots, 1) == Some(0) && w.streams[0] == Stream([], 0)
  {
    var w0 := EmptyWorld();
    assert !w0.slots[1].inUse;
    FirstFreeIsLowest(w0.slots);
    OpenKeepsWorld(w0, Some(map["path" := Str("notes.txt"), "mode" := Str("w+b")]), Some([]));
  }

  /** Writing bytes the stream fully accepts on a live handle. */
  lemma WriteAll(w: World, h: int, id: nat, decode: string -> Option<seq<Byte>>, text: string, bytes: seq<Byte>)
    requires WorldOk(w) && Lookup(w.slots, h) == Some(id)
    requires decode(text) == Some(bytes)
    ensures var (w2, o2) := WriteSpec(w, WriteRequest(h, text), decode, |bytes|);
      o2 == Replied(Ok(Written(|bytes|))) && WorldOk(w2) && w2.slots == w.slots &&
      w2.streams[id] == WriteAt(w.streams[id], bytes)
  {
    RequestFields(h, text, 0, 0, 0);
    WriteKeepsWorld(w, WriteRequest(h, text), decode, |bytes|);
    assert bytes[..|bytes|] == bytes;
  }

  lemma SeekHome(w: World, h: int, id: nat)
    requires WorldOk(w) && Lookup(w.slots, h) == Some(id)
    ensures var (w3, o3) := SeekSpec(w, SeekRequest(h, 0, 0));
      o3 == Replied(Ok(Position(0))) && WorldOk(w3) && w3.slots == w.slots &&
      w3.streams[id] == w.streams[id].(pos := 0)
  {
    RequestFields(h, [], 0, 0, 0);
    SeekKeepsWorld(w, SeekRequest(h, 0, 0));
  }

  /** Reading a stream from its start, asking for at least all of it, returns all of it. */
  lemma ReadBack(w: World, h: int, id: nat, bytes: seq<Byte>, want: nat)
    requires WorldOk(w) && Lookup(w.slots, h) == Some(id) && |bytes| <= MaxRead && |bytes| <= want
    requires w.streams[id] == Stream(bytes, 0)
    ensures var (w4, o4) := ReadSpec(w, ReadRequest(h, want), true, true);
      o4 == Replied(Ok(Chunk(Base64.AsWritten(bytes), |bytes|))) && WorldOk(w4) && w4.slots == w.slots
  {
    RequestFields(h, [], 0, 0, want);
    ReadKeepsWorld(w, ReadRequest(h, want), true, true);
    assert bytes[0..|bytes|] == bytes;
  }

  lemma CloseThenRead(w: World, h: int)
    requires WorldOk(w) && Lookup(w.slots, h).Some?
    ensures var (w5, o5) := CloseSpec(w, HandleRequest(h));
      o5 == Replied(Ok(Closed)) && WorldOk(w5) &&
      ReadSpec(w5, HandleRequest(h), true, true).1 == Replied(Err("bad handle"))
  {
    RequestFields(h, [], 0, 0, 0);
    CloseTwice(w, HandleRequest(h));
  }

  /**
   * A whole session from the empty table: opening a new file with `w+b`
   * gives handle 1, writing the decoded bytes reports their count, seeking
   * back to 0 reports 0, reading more than was written returns exactly
   * those bytes, encoded as the encoder writes them, close succeeds, and a
   * read on the closed handle reports `bad handle`.
   */
  method Session(decode: string -> Option<seq<Byte>>, text: string, bytes: seq<Byte>)
    returns (replies: seq<Outcome>)
    requires decode(text) == Some(bytes) && |bytes| <= MaxRead
    ensures replies == [Replied(Ok(Handle(1))), Replied(Ok(Written(|bytes|))), Replied(Ok(Position(0))),
                        Replied(Ok(Chunk(Base64.AsWritten(bytes), |bytes|))), Replied(Ok(Closed)), Replied(Err("bad handle"))]
  {
    OpenFirst();
    var (w1, o1) := OpenSpec(EmptyWorld(), Some(map["path" := Str("notes.txt"), "mode" := Str("w+b")]), Some([]));
    WriteAll(w1, 1, 0, decode, text, bytes);
    var (w2, o2) := WriteSpec(w1, WriteRequest(1, text), decode, |bytes|);
    assert w2.streams[0] == Stream(bytes, |bytes|);
    SeekHome(w2, 1, 0);
    var (w3, o3) := SeekSpec(w2, SeekRequest(1, 0, 0));
    ReadBack(w3, 1, 0, bytes, |bytes| + 1);
    var (w4, o4) := ReadSpec(w3, ReadRequest(1, |bytes| + 1), true, true);
    CloseThenRead(w4, 1);
    var (w5, o5) := CloseSpec(w4, HandleRequest(1));
    var (w6, o6) := ReadSpec(w5, HandleRequest(1), true, true);
    replies := [o1, o2, o3, o4, o5, o6];
  }
}
