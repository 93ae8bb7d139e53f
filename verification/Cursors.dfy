/**
 * Cursors over the postings of a term (`lib/inv.c`, sen_inv_cursor_open, sen_inv_cursor_next,
 * sen_inv_cursor_next_pos): the merge of buffer_flush, done lazily.
 */
module Cursors {
  import opened ByteCodec
  import opened PostingCodec
  import opened Records
  import opened BufferList
  import opened Merging
  import opened PostingWriters
  import opened ChunkReaders
  import opened FlushTerms

  /** pc and pb: the last posting read from the chunk, and the last record read from the buffer. */
  datatype Head = Head(id: DocId, tf: u32, score: u32, rest: u32, pos: u32)

  const NO_HEAD := Head(NONE, 0, 0, 0, 0)

  /** Which of the two is the current posting. */
  datatype Post = Nothing | InChunk | InBuffer

  /** The position reached when `k` of the gaps have been read. */
  function PosAt(gaps: seq<u32>, k: nat): u32
    requires k <= |gaps|
  {
    if k == 0 then 0 else PositionsOf(0, gaps)[k - 1]
  }

  lemma {:induction false} PositionStep(last: u32, gaps: seq<u32>, k: nat)
    requires k < |gaps|
    ensures PositionsOf(last, gaps)[k] == ((if k == 0 then last else PositionsOf(last, gaps)[k - 1]) + gaps[k]) % TWO32
    decreases k
  {
    if k > 0 {
      PositionStep((last + gaps[0]) % TWO32, gaps[1..], k - 1);
    }
  }

  /** `h` is the posting `p`, with all but `h.rest` of its positions read. */
  ghost predicate Reads(h: Head, p: Posting) {
    && h.id == p.id && h.tf == |p.gaps| && h.score == p.score
    && h.rest <= h.tf && h.pos == PosAt(p.gaps, h.tf - h.rest)
  }

  /** The next position to be read from `h`. */
  ghost predicate PositionIs(h: Head, pos: u32, p: Posting) {
    && Reads(h, p) && h.rest > 0
    && pos == PositionsOf(0, p.gaps)[h.tf - h.rest]
  }

  /** SEN_B_DEC of one position, by sen_inv_cursor_next_pos. */
  function TakePos(h: Head, s: seq<byte>): (Head, seq<byte>)
    requires h.rest > 0
  {
    var (gap, s1) := DecB(s);
    (h.(rest := h.rest - 1, pos := (h.pos + gap) % TWO32), s1)
  }

  lemma TakesPos(h: Head, p: Posting, more: seq<byte>)
    requires Reads(h, p) && h.rest > 0
    ensures
      var k := h.tf - h.rest;
      var (h2, s2) := TakePos(h, EncGaps(p.gaps[k..]) + more);
      && Reads(h2, p) && h2.rest == h.rest - 1 && h2.pos == PositionsOf(0, p.gaps)[k]
      && s2 == EncGaps(p.gaps[k + 1..]) + more
  {
    hide EncB, DecB;
    var k := h.tf - h.rest;
    PositionStep(0, p.gaps, k);
    assert p.gaps[k..][1..] == p.gaps[k + 1..];
    Assoc(EncB(p.gaps[k]), EncGaps(p.gaps[k + 1..]), more);
    DecEncB(p.gaps[k], EncGaps(p.gaps[k + 1..]) + more);
  }

  class Cursor {
    const withPos: bool
    const buf: bool             // false for a packed word: the only posting is `pb`
    const mem: Mem
    var chunkUsed: bool         // CHUNK_USED, BUFFER_USED: what the next call reads on
    var bufferUsed: bool
    var soleDoc: bool           // SOLE_DOC_USED, SOLE_POS_USED
    var solePos: bool
    var pc: Head
    var pb: Head
    var cp: seq<byte>           // headers still to be read
    var cpp: seq<byte>          // positions still to be read, from those of `pc` on
    var flags: Flags
    var bp: seq<byte>           // positions of `pb` still to be read
    var nextb: nat
    var post: Post

    ghost const plan: seq<Posting>   // what the cursor lists, in the end
    ghost var out: nat               // how many of them it has listed
    ghost const all: seq<Posting>
    ghost var n: nat                 // chunk postings read
    ghost const content: Content
    ghost const head: nat
    ghost const l: seq<nat>
    ghost var j: nat                 // records read

    /** A packed word: its posting is the only one. */
    constructor Sole(withPos: bool, id: DocId, pos: u32)
      ensures Opened([Posting(id, 0, [pos])]) && this.withPos == withPos
    {
      this.withPos, buf, mem := withPos, false, map[];
      chunkUsed, bufferUsed, soleDoc, solePos := false, false, false, false;
      pc, pb := NO_HEAD, Head(id, 1, 0, 0, pos);
      cp, cpp, flags, bp, nextb, post := [], [], CLEAR, [], 0, Nothing;
      plan, out, all, n, content, head, l, j := [Posting(id, 0, [pos])], 0, [], 0, map[], 0, [], 0;
    }

    /** A slot: its chunk image `sc`, and its list of records from `head` on. */
    constructor Merged(withPos: bool, sc: seq<byte>, mem: Mem, head: nat,
                       ghost ps: seq<Posting>, ghost c: Content, ghost l: seq<nat>)
      requires Holds(sc, ps) && TermRecords(mem, c, head, l)
      ensures forall k :: 0 <= k < |l| ==> l[k] in c
      ensures Opened(Merge(ps, Entries(c, l))) && this.withPos == withPos
    {
      hide EncB, DecB, Headers, Bodies, Image, Merge, RecordBytes, Padding, EncGaps, Encodes, Chain, Sorted, Buffered;
      ChainEntries(mem, c, head, l);
      ImageParts(ps);
      if sc != [] {
        var (o, t) := DecB(sc);
        cp, cpp := t[..o], t[o..];
      } else {
        EmptyImage();
        cp, cpp := [], [];
      }
      this.withPos, buf, this.mem := withPos, true, mem;
      chunkUsed, bufferUsed, soleDoc, solePos := true, true, false, false;
      pc, pb, flags, bp, nextb, post := NO_HEAD, NO_HEAD, CLEAR, [], head, Nothing;
      plan, out := Merge(ps, Entries(c, l)), 0;
      all, n, content, this.head, this.l, j := ps, 0, c, head, l, 0;
      new;
      assert all[0..] == all && Pending()[0..] == Pending() && plan[0..] == plan;
      assert [] + Bodies(all) == Bodies(all);
    }

    ghost predicate ChunkOk()
      reads `pc, `cp, `cpp, `flags, `n
    {
      && Sorted(NONE, all) && n <= |all| && Sorted(Before(all, n), all[n..])
      && cp == Headers(flags, Before(all, n), all[n..])
      && (pc.id.rid != 0 ==> n > 0 && Reads(pc, all[n - 1]))
      && (pc.id.rid == 0 ==> n == |all| || (n == 0 && pc == NO_HEAD))
      && (withPos && (n < |all| || pc.id.rid != 0) ==> cpp == PosLeft(pc) + Bodies(all[n..]))
    }

    ghost function PosLeft(h: Head): seq<byte>
      requires h.id.rid != 0 ==> 0 < n <= |all| && Reads(h, all[n - 1])
      reads `n
    {
      if h.id.rid == 0 then [] else EncGaps(all[n - 1].gaps[h.tf - h.rest..])
    }

    ghost predicate RecordOk()
      reads `pb, `bp, `nextb, `j
    {
      && TermRecords(mem, content, head, l) && j <= |l| && nextb == BufferList.Next(l, j)
      && (pb.id.rid != 0 ==>
            j > 0 && l[j - 1] in content && ValidRecord(content[l[j - 1]]) && RecordReads(content[l[j - 1]]))
      && (pb.id.rid == 0 ==> j == |l| || (j == 0 && pb == NO_HEAD))
    }

    ghost predicate RecordReads(e: Posting)
      requires ValidRecord(e)
      reads `pb, `bp
    {
      Reads(pb, e) && bp == EncGaps(e.gaps[pb.tf - pb.rest..]) + Padding(|RecordBytes(e, [])|)
    }

    /** The chunk postings not listed yet, given whether `pc` is used. */
    ghost function ChunkLeft(used: bool): seq<Posting>
      requires ChunkOk()
      reads `pc, `cp, `cpp, `flags, `n
    {
      all[if pc.id.rid != 0 && !used then n - 1 else n..]
    }

    ghost function RecordLeft(used: bool): seq<Posting>
      requires RecordOk()
      reads `pb, `bp, `nextb, `j
    {
      Pending()[if pb.id.rid != 0 && !used then j - 1 else j..]
    }

    /** All records of the buffer's list. */
    ghost function Pending(): (b: seq<Posting>)
      requires TermRecords(mem, content, head, l)
      ensures |b| == |l|
    {
      ChainEntries(mem, content, head, l);
      Entries(content, l)
    }

    /** SEN_B_SKIP over the positions of `pc` that were not read. */
    method SkipRest()
      requires ChunkOk() && withPos && n < |all|
      modifies this`cpp
      ensures cpp == Bodies(all[n..])
    {
      hide Headers, Bodies, EncGaps;
      if pc.id.rid != 0 {
        cpp := SkipGaps(cpp, pc.rest, all[n - 1].gaps[pc.tf - pc.rest..], Bodies(all[n..]));
      }
    }

    /** The next header, past the positions of the last posting. */
    method ReadChunkHeader()
      requires ChunkOk() && n < |all|
      modifies this`pc, this`cp, this`cpp, this`flags, this`n
      ensures ChunkOk() && n == old(n) + 1 && pc.id.rid != 0 && pc.rest == pc.tf
    {
      hide Headers, Bodies, ReadHeader, EncGaps;
      if withPos {
        SkipRest();
      }
      ReadNext(flags, all, n);
      var h := ReadHeader(flags, pc.id, cp);
      flags, cp := h.flags, h.rest;
      pc := Head(h.id, h.tf, h.score, h.tf, 0);
      n := n + 1;
      BodiesAt(all, n - 1);
      assert all[n - 1].gaps[0..] == all[n - 1].gaps;
    }

    /** Read a header from the chunk, if the last one is used. */
    method NextChunk()
      requires ChunkOk() && (pc.id.rid == 0 && !chunkUsed ==> n == |all|)
      modifies this`pc, this`cp, this`cpp, this`flags, this`n
      ensures ChunkOk() && (pc.id.rid == 0 ==> n == |all|)
      ensures ChunkLeft(false) == old(ChunkLeft(chunkUsed))
      ensures chunkUsed && pc.id.rid != 0 ==> pc.rest == pc.tf
      ensures !chunkUsed ==> pc == old(pc)
    {
      hide Headers, Bodies, ReadHeader, EncGaps;
      if chunkUsed {
        NoHeaders(flags, Before(all, n), all[n..]);
        if cp != [] {
          ReadChunkHeader();
        } else {
          pc := pc.(id := pc.id.(rid := 0));
        }
      }
    }

    /** Read a record from the buffer, if the last one is used. */
    method NextRecord()
      requires RecordOk() && (pb.id.rid == 0 && !bufferUsed ==> j == |l|)
      modifies this`pb, this`bp, this`nextb, this`j
      ensures RecordOk() && (pb.id.rid == 0 ==> j == |l|)
      ensures RecordLeft(false) == old(RecordLeft(bufferUsed))
      ensures bufferUsed && pb.id.rid != 0 ==> pb.rest == pb.tf
      ensures !bufferUsed ==> pb == old(pb)
    {
      hide ReadId, ReadCount, Padding, RecordBytes, EncGaps;
      if bufferUsed {
        ChainEntries(mem, content, head, l);
        if nextb != 0 {
          RecordAt(mem, content, head, l, j);
          RecordsGrow(mem, content, head, l, j);
          hide TermRecords;
          var last := pb.id;
          var rec := mem[nextb];
          var (id, s) := ReadId(rec.data);
          var (tf, score, body) := ReadCount(s);
          if !Lt(last, id) {
            assert false;  // "brokend!!": the list is strictly increasing
          }
          pb, bp := Head(id, tf, score, tf, 0), body;
          nextb := rec.step;
          j := j + 1;
          assert content[l[j - 1]].gaps[0..] == content[l[j - 1]].gaps;
        } else {
          pb := pb.(id := pb.id.(rid := 0));
        }
      }
    }

    /** What both have left, and what is still to be listed. */
    ghost predicate Left(chunk: bool, buffer: bool)
      reads `pc, `cp, `cpp, `flags, `n, `pb, `bp, `nextb, `j, `out
    {
      && ChunkOk() && RecordOk()
      && (!chunk ==> if pc.id.rid == 0 then n == |all| else pc.rest == pc.tf)
      && (!buffer ==> if pb.id.rid == 0 then j == |l| else pb.rest == pb.tf)
      && InStep(plan, out, ChunkLeft(chunk), RecordLeft(buffer))
    }

    ghost function Todo(chunk: bool, buffer: bool): nat
      requires Left(chunk, buffer)
      reads this
    {
      |ChunkLeft(chunk)| + |RecordLeft(buffer)|
    }

    /** Read on where the last one read is used. */
    method ReadOn()
      requires Left(chunkUsed, bufferUsed)
      modifies this`pc, this`cp, this`cpp, this`flags, this`n, this`pb, this`bp, this`nextb, this`j
      ensures Left(false, false) && Todo(false, false) == old(Todo(chunkUsed, bufferUsed))
    {
      hide ChunkOk, RecordOk, ChunkLeft, RecordLeft, InStep;
      NextChunk();
      NextRecord();
    }

    /** The current posting, if there is one. */
    ghost predicate HereOk()
      reads this
    {
      && out <= |plan|
      && match post
         case Nothing => true
         case InChunk => out > 0 && chunkUsed && pc.id.rid != 0 && 0 < n <= |all| && all[n - 1] == plan[out - 1]
         case InBuffer =>
           && out > 0 && bufferUsed && pb.id.rid != 0
           && 0 < j <= |l| && l[j - 1] in content && content[l[j - 1]] == plan[out - 1]
    }

    /** `pc` and `pb` are the first of what is left. */
    lemma HeadsLeft()
      requires Left(false, false)
      ensures if pc.id.rid == 0 then ChunkLeft(false) == []
              else
                && 0 < n <= |all| && ChunkLeft(false) == [all[n - 1]] + ChunkLeft(true)
                && Reads(pc, all[n - 1]) && pc.tf >= 1 && pc.id.sid >= 1
      ensures if pb.id.rid == 0 then RecordLeft(false) == []
              else
                && 0 < j <= |l| && l[j - 1] in content && RecordLeft(false) == [content[l[j - 1]]] + RecordLeft(true)
                && Reads(pb, content[l[j - 1]])
    {
      hide Merge, Headers, Bodies, RecordBytes, Padding, EncGaps;
    }

    /** Neither has anything left: the cursor is at its end. */
    lemma NothingLeft()
      requires Left(false, false) && pc.id.rid == 0 && pb.id.rid == 0
      ensures Left(chunkUsed, bufferUsed) && out == |plan|
    {
      hide Headers, Bodies, RecordBytes, Padding, EncGaps;
      MergeStep(plan, out, [], []);
    }

    /** The chunk posting read last is used; it is listed. */
    method UseChunk() returns (listed: bool)
      requires Left(false, false) && pc.id.rid != 0 && ChunkLeft(false) != []
      requires out < |plan| && plan[out] == ChunkLeft(false)[0]
          && InStep(plan, out + 1, ChunkLeft(true), RecordLeft(false))
      modifies this`chunkUsed, this`bufferUsed, this`post, this`out
      ensures Left(chunkUsed, bufferUsed) && Todo(chunkUsed, bufferUsed) < old(Todo(false, false))
      ensures listed && out == old(out) + 1 && Listed()
    {
      hide Merge, InStep, ChunkOk, RecordOk, ChunkLeft, RecordLeft, TermRecords;
      HeadsLeft();
      chunkUsed, bufferUsed, listed := true, false, false;
      if pc.tf != 0 && pc.id.sid != 0 {
        listed, post, out := true, InChunk, out + 1;
      }
    }

    /**
     * The record read last is used (and, with `both`, the chunk
     * posting it replaces); it is listed if it adds a posting.
     */
    method UseRecord(both: bool) returns (listed: bool)
      requires Left(false, false) && pb.id.rid != 0 && RecordLeft(false) != [] && (both ==> pc.id.rid != 0)
      requires Outputs(plan, out, RecordLeft(false)[0], ChunkLeft(both), RecordLeft(true))
      modifies this`chunkUsed, this`bufferUsed, this`post, this`out
      ensures Left(chunkUsed, bufferUsed) && Todo(chunkUsed, bufferUsed) < old(Todo(false, false))
      ensures listed ==> out == old(out) + 1 && Listed()
      ensures !listed ==> out == old(out)
    {
      hide Merge, InStep, ChunkOk, RecordOk, ChunkLeft, RecordLeft, TermRecords;
      HeadsLeft();
      chunkUsed, bufferUsed, listed := both, true, false;
      if pb.tf != 0 && pb.id.sid != 0 {
        listed, post, out := true, InBuffer, out + 1;
      }
    }

    /** The current posting was just listed. */
    ghost predicate Listed()
      reads this
    {
      post != Nothing && HereOk() && Reads(Here(), plan[out - 1]) && Here().rest == Here().tf
    }

    /** The decision of sen_inv_cursor_next: which of `pc` and `pb` is used, and is it listed? */
    method Choose() returns (listed: bool)
      requires Left(false, false)
      requires pc.id.rid != 0 || pb.id.rid != 0
      modifies this`chunkUsed, this`bufferUsed, this`post, this`out
      ensures Left(chunkUsed, bufferUsed) && Todo(chunkUsed, bufferUsed) < old(Todo(false, false))
      ensures listed ==> out == old(out) + 1 && Listed()
      ensures !listed ==> out == old(out)
    {
      hide Merge, InStep, ChunkOk, RecordOk, ChunkLeft, RecordLeft, TermRecords, Outputs, Listed;
      HeadsLeft();
      MergeStep(plan, out, ChunkLeft(false), RecordLeft(false));
      if pb.id.rid != 0 {
        if pc.id.rid != 0 {
          if pc.id.rid < pb.id.rid {
            listed := UseChunk();
          } else if pb.id.rid < pc.id.rid {
            listed := UseRecord(false);
          } else if pb.id.sid != 0 {
            if pc.id.sid < pb.id.sid {
              listed := UseChunk();
            } else {
              listed := UseRecord(pb.id.sid == pc.id.sid);
            }
          } else {
            chunkUsed, bufferUsed, listed := true, false, false;
          }
        } else {
          listed := UseRecord(false);
        }
      } else {
        listed := UseChunk();
      }
    }

    function Here(): Head
      reads this
    {
      if post == InChunk then pc else pb
    }

    ghost predicate Valid()
      reads this
    {
      && out <= |plan| && (post == Nothing ==> out == 0 || out == |plan|)
      && if buf then !soleDoc && !solePos && Left(chunkUsed, bufferUsed) && HereOk() else SoleOk()
    }

    /** A packed posting. */
    ghost predicate SoleOk()
      reads this
    {
      && |plan| == 1 && |plan[0].gaps| == 1 && pb.pos == plan[0].gaps[0]
      && pb.id == plan[0].id && pb.tf == 1 && pb.score == plan[0].score
      && out == (if soleDoc then 1 else 0) && post != InChunk && (post == InBuffer ==> soleDoc)
    }

    /** The postings not listed yet. */
    ghost function Remaining(): seq<Posting>
      requires Valid()
      reads this
    {
      plan[out..]
    }

    /** A new cursor, that will list `ps`. */
    ghost predicate Opened(ps: seq<Posting>)
      reads this
    {
      Valid() && Remaining() == ps && post == Nothing && !solePos
    }

    /** The positions of the current posting that were read. */
    ghost function Taken(): int
      reads this
    {
      if buf then Here().tf - Here().rest else if solePos then 1 else 0
    }

    /** The current posting is `p`. */
    ghost predicate Shows(p: Posting)
      reads this
    {
      post != Nothing && Here().id == p.id && Here().tf == |p.gaps| && Here().score == p.score
    }

    method NextMerged() returns (ok: bool)
      requires buf && !soleDoc && !solePos && Left(chunkUsed, bufferUsed) && out <= |plan|
      modifies this
      ensures !soleDoc && !solePos && Left(chunkUsed, bufferUsed)
      ensures ok == (old(out) < |plan|)
      ensures HereOk() && (ok ==> out == old(out) + 1 && Shows(plan[out - 1]) && Taken() == 0)
      ensures !ok ==> out == |plan| && post == Nothing
    {
      hide Left, ChunkOk, RecordOk, ChunkLeft, RecordLeft;
      while true
        invariant Left(chunkUsed, bufferUsed) && buf && !soleDoc && !solePos && out == old(out)
        decreases Todo(chunkUsed, bufferUsed)
      {
        ReadOn();
        if pc.id.rid == 0 && pb.id.rid == 0 {
          NothingLeft();
          post := Nothing;
          return false;
        }
        var listed := Choose();
        if listed {
          return true;
        }
      }
    }

    /** sen_inv_cursor_next: the next posting becomes the current one, until there are none. */
    method Next() returns (ok: bool)
      requires Valid()
      modifies this
      ensures Valid() && ok == (old(Remaining()) != [])
      ensures ok ==> Shows(old(Remaining())[0]) && plan[out - 1] == old(Remaining())[0]
      ensures ok ==> out == old(out) + 1 && (old(out) > 0 ==> Taken() == 0)
      ensures ok ==> Remaining() == old(Remaining())[1..] && Taken() == if old(solePos) then 1 else 0
      ensures !ok ==> Remaining() == [] && post == Nothing
    {
      hide Left, HereOk;
      if buf {
        ok := NextMerged();
      } else if soleDoc {
        post, ok := Nothing, false;
      } else {
        post, soleDoc, out, ok := InBuffer, true, 1, true;
      }
    }

    method TakeChunk()
      requires withPos && Left(true, bufferUsed) && pc.id.rid != 0 && pc.rest > 0
      modifies this`pc, this`cpp
      ensures Left(true, bufferUsed) && pc == old(pc).(rest := old(pc).rest - 1, pos := pc.pos)
      ensures 0 < n <= |all| && PositionIs(old(pc), pc.pos, all[n - 1])
    {
      hide InStep, RecordOk, RecordLeft, Headers, Bodies, EncGaps, Before;
      TakesPos(pc, all[n - 1], Bodies(all[n..]));
      var (h, s) := TakePos(pc, cpp);
      pc, cpp := h, s;
    }

    method TakeRecord()
      requires Left(chunkUsed, true) && pb.id.rid != 0 && pb.rest > 0
      modifies this`pb, this`bp
      ensures Left(chunkUsed, true) && pb == old(pb).(rest := old(pb).rest - 1, pos := pb.pos)
      ensures 0 < j <= |l| && l[j - 1] in content && PositionIs(old(pb), pb.pos, content[l[j - 1]])
    {
      hide InStep, ChunkOk, ChunkLeft, TermRecords, RecordBytes, Padding, EncGaps;
      ghost var e := content[l[j - 1]];
      TakesPos(pb, e, Padding(|RecordBytes(e, [])|));
      var (h, s) := TakePos(pb, bp);
      pb, bp := h, s;
    }

    /** The next position of a posting of a merged list. */
    method NextPosMerged() returns (ok: bool)
      requires buf && withPos && Left(chunkUsed, bufferUsed) && HereOk()
      modifies this`pc, this`cpp, this`pb, this`bp
      ensures Left(chunkUsed, bufferUsed) && HereOk()
      ensures ok == (old(Here().rest) > 0 && post != Nothing)
      ensures ok ==> out > 0 && Here() == old(Here()).(rest := old(Here()).rest - 1, pos := Here().pos)
      ensures ok ==> PositionIs(old(Here()), Here().pos, plan[out - 1])
      ensures !ok ==> Here() == old(Here())
    {
      hide Left, PositionIs;
      ok := true;
      if post == InChunk {
        if pc.rest != 0 {
          TakeChunk();
        } else {
          ok := false;
        }
      } else if post == InBuffer {
        if pb.rest != 0 {
          TakeRecord();
        } else {
          ok := false;
        }
      } else {
        ok := false;
      }
    }

    /** sen_inv_cursor_next_pos: the next position of the current posting, until there are none. */
    method NextPos() returns (ok: bool)
      requires Valid()
      modifies this
      ensures Valid() && Remaining() == old(Remaining()) && out == old(out) && post == old(post)
      ensures ok ==> Here().id == old(Here()).id
      ensures !withPos ==> ok && Here() == old(Here())
      ensures withPos && post != Nothing ==> out > 0 && 0 <= old(Taken()) && ok == (old(Taken()) < |plan[out - 1].gaps|)
      ensures withPos && post != Nothing && ok ==>
                Here().pos == PositionsOf(0, plan[out - 1].gaps)[old(Taken())] && Taken() == old(Taken()) + 1
      ensures withPos && post == Nothing ==> ok == (!buf && !old(solePos))
      ensures !ok ==> Here() == old(Here()) && Taken() == old(Taken())
    {
      hide Left;
      HereReads();
      ok := true;
      if withPos {
        if buf {
          ok := NextPosMerged();
        } else if solePos {
          ok := false;
        } else {
          solePos := true;
        }
      }
    }

    lemma HereReads()
      requires Valid()
      ensures buf && post != Nothing ==> out > 0 && Reads(Here(), plan[out - 1])
    {
      hide InStep, Headers, Bodies, TermRecords, RecordBytes, Padding, EncGaps;
    }
  }

  /** The ids of a record list increase. */
  lemma RecordsGrow(m: Mem, c: Content, head: nat, l: seq<nat>, k: nat)
    requires TermRecords(m, c, head, l) && k < |l|
    ensures l[k] in c && (k > 0 ==> l[k - 1] in c && Lt(c[l[k - 1]].id, c[l[k]].id))
  {}
}
