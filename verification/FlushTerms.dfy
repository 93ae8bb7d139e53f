/**
 * The merge of one term in buffer_flush (`lib/inv.c`): chunk postings and buffer records are
 * read in step, and the survivors are written as a new chunk image.
 */
module FlushTerms {
  import opened ByteCodec
  import opened PostingCodec
  import opened Records
  import opened BufferList
  import opened Merging
  import opened PostingWriters
  import opened ChunkReaders

  /** The records of a term: their list, and what they encode. */
  ghost predicate TermRecords(m: Mem, c: Content, head: nat, l: seq<nat>) {
    && Chain(m, c, head, l)
    && (forall k :: 0 <= k < |l| ==> Encodes(m[l[k]].data, c[l[k]]))
  }

  lemma RecordAt(m: Mem, c: Content, head: nat, l: seq<nat>, k: nat)
    requires TermRecords(m, c, head, l) && k < |l|
    ensures l[k] != 0 && l[k] in m && l[k] in c && m[l[k]].step == Next(l, k + 1) && Encodes(m[l[k]].data, c[l[k]])
    ensures ReadId(m[l[k]].data).0 == c[l[k]].id && c[l[k]].id.rid >= 1
    ensures ReadCount(ReadId(m[l[k]].data).1) ==
            (|c[l[k]].gaps|, c[l[k]].score, EncGaps(c[l[k]].gaps) + Padding(|RecordBytes(c[l[k]], [])|))
  {
    hide ReadId, ReadCount, Padding, RecordBytes, EncGaps;
    StepAt(m, c, head, l, k);
    ReadRecordBack(m[l[k]].data, c[l[k]]);
  }

  lemma ChainEntries(m: Mem, c: Content, head: nat, l: seq<nat>)
    requires TermRecords(m, c, head, l)
    ensures forall k :: 0 <= k < |l| ==> l[k] in c
    ensures Buffered(Entries(c, l))
    ensures head == Next(l, 0)
  {}

  /** GETNEXTB: the record list, read one record at a time. */
  class RecordReader {
    const mem: Mem
    var id: DocId           // the current record; rid is 0 when there is none
    var sbp: seq<byte>      // its bytes behind the id
    var next: nat
    ghost const content: Content
    ghost const head: nat
    ghost const l: seq<nat>
    ghost var j: nat        // records read
    ghost var on: bool

    ghost predicate Valid()
      reads this
    {
      && TermRecords(mem, content, head, l) && j <= |l| && next == Next(l, j)
      && (on <==> id.rid != 0)
      && (on ==> j > 0 && l[j - 1] in content && l[j - 1] in mem
                 && id == content[l[j - 1]].id && sbp == ReadId(mem[l[j - 1]].data).1)
      && (!on ==> j == |l| || j == 0)
    }

    ghost function All(): (b: seq<Posting>)
      requires forall k :: 0 <= k < |l| ==> l[k] in content
      ensures |b| == |l|
    {
      Entries(content, l)
    }

    ghost function Rest(): (r: seq<Posting>)
      requires Valid()
      reads this
    {
      hide RecordBytes;
      All()[if on then j - 1 else j..]
    }

    /** There is a current record iff there are records left, and it reads as the first of them. */
    ghost predicate Ready()
      reads this
      ensures Ready() ==>
                && Valid() && (id.rid != 0 <==> Rest() != [])
                && (Rest() != [] ==> Rest()[0].id == id)
    {
      && Valid() && (on || j == |l|)
      && (on ==>
            var e := Rest()[0];
            && ValidRecord(e)
            && ReadCount(sbp) == (|e.gaps|, e.score, EncGaps(e.gaps) + Padding(|RecordBytes(e, [])|)))
    }

    constructor (mem: Mem, head: nat, ghost content: Content, ghost l: seq<nat>)
      requires TermRecords(mem, content, head, l)
      ensures Valid() && !on && j == 0 && id.rid == 0
      ensures (forall k :: 0 <= k < |l| ==> l[k] in content) && Rest() == Entries(content, l)
      ensures this.mem == mem && this.content == content && this.l == l
    {
      hide RecordBytes;
      ChainEntries(mem, content, head, l);
      this.mem, this.head, this.content, this.l := mem, head, content, l;
      id, sbp, next, j, on := NONE, [], head, 0, false;
    }

    method Get()
      requires Valid()
      modifies this
      ensures Ready() && (on <==> old(j) < |l|)
      ensures Rest() == old(if id.rid != 0 then Rest()[1..] else Rest())
    {
      hide ReadId, ReadCount, Padding, RecordBytes, EncGaps;
      ChainEntries(mem, content, head, l);
      if j < |l| { RecordAt(mem, content, head, l, j); }
      hide TermRecords;
      if next != 0 {
        var rec := mem[next];
        var (recId, rest) := ReadId(rec.data);
        id, sbp := recId, rest;
        next := rec.step;
        j, on := j + 1, true;
      } else {
        id := id.(rid := 0);
        on := false;
      }
    }
  }

  /** PUTNEXTC: the current chunk posting goes out, and the next header is read. */
  method PutChunk(w: PostingWriter, r: ChunkReader)
    requires w.Valid() && r.Ready() && r.Rest() != []
    requires w.ndf < |w.plan| && w.plan[w.ndf] == r.Rest()[0]
    modifies w, r
    ensures w.Valid() && w.ndf == old(w.ndf) + 1
    ensures r.Ready() && r.Rest() == old(r.Rest())[1..]
  {
    hide EncGaps, Bodies, Headers;
    BodiesAt(r.all, r.n - 1);
    assert r.Rest()[0] == r.all[r.n - 1];
    assert r.Rest()[1..] == r.all[r.n..];
    r.spp := w.Put(r.id, r.tf, r.score, r.spp, Bodies(r.all[r.n..]));
    r.Step();
  }

  /** PUTNEXTB: the current record goes out if it adds a posting, and the next one is read. */
  method PutRecord(w: PostingWriter, q: RecordReader)
    requires w.Valid() && q.Ready() && q.Rest() != []
    requires Adds(q.Rest()[0]) ==> w.ndf < |w.plan| && w.plan[w.ndf] == q.Rest()[0]
    modifies w, q
    ensures w.Valid() && w.ndf == old(w.ndf) + |Live(old(q.Rest())[0])|
    ensures q.Ready() && q.Rest() == old(q.Rest())[1..]
  {
    hide EncGaps, ReadCount, RecordBytes, Padding;
    ghost var e := q.Rest()[0];
    assert q.Rest()[1..] == q.All()[q.j..];
    if q.id.rid != 0 && q.id.sid != 0 {
      var (tf, score, body) := ReadCount(q.sbp);
      if tf > 0 {
        var _ := w.Put(q.id, tf, score, body, Padding(|RecordBytes(e, [])|));
      }
    }
    q.Get();
  }

  /** What is still to be written is exactly the merge of what is still to be read. */
  ghost predicate InStep(plan: seq<Posting>, n: nat, c: seq<Posting>, b: seq<Posting>) {
    n <= |plan| && plan[n..] == Merge(c, b)
  }

  /** How the merge goes on, in the cases that buffer_flush distinguishes. */
  lemma MergeStep(plan: seq<Posting>, n: nat, c: seq<Posting>, b: seq<Posting>)
    requires InStep(plan, n, c, b)
    ensures |b| > 0 && (|c| == 0 || b[0].id.rid < c[0].id.rid) ==> Outputs(plan, n, b[0], c, b[1..])
    ensures |c| > 0 && (|b| == 0 || c[0].id.rid < b[0].id.rid) ==>
              n < |plan| && plan[n] == c[0] && InStep(plan, n + 1, c[1..], b)
    ensures |c| > 0 && |b| > 0 && c[0].id.rid == b[0].id.rid ==>
              if b[0].id.sid == 0 then InStep(plan, n, c[1..], b)
              else if c[0].id.sid < b[0].id.sid then n < |plan| && plan[n] == c[0] && InStep(plan, n + 1, c[1..], b)
              else if c[0].id.sid == b[0].id.sid then Outputs(plan, n, b[0], c[1..], b[1..])
              else Outputs(plan, n, b[0], c, b[1..])
    ensures |c| == 0 && |b| == 0 ==> n == |plan|
  {
    if |b| == 0 && |c| > 0 {
      assert Merge(c, b) == [c[0]] + c[1..] && Merge(c[1..], b) == c[1..];
    }
  }

  /** The record `e` is next to be written, if it adds a posting, and then the merge of `c` and `b`. */
  ghost predicate Outputs(plan: seq<Posting>, n: nat, e: Posting, c: seq<Posting>, b: seq<Posting>) {
    && (Adds(e) ==> n < |plan| && plan[n] == e)
    && InStep(plan, n + |Live(e)|, c, b)
  }

  /** One round of the merge loop. */
  method MergeRound(w: PostingWriter, r: ChunkReader, q: RecordReader)
    requires w.Valid() && r.Ready() && q.Ready() && (r.Rest() != [] || q.Rest() != [])
    requires InStep(w.plan, w.ndf, r.Rest(), q.Rest())
    modifies w, r, q
    ensures w.Valid() && r.Ready() && q.Ready()
    ensures InStep(w.plan, w.ndf, r.Rest(), q.Rest())
    ensures |r.Rest()| + |q.Rest()| < old(|r.Rest()| + |q.Rest()|)
  {
    hide Merge, ReadCount, RecordBytes, Padding, EncGaps, InStep;
    hide PostingWriter.Valid, ChunkReader.Ready, ChunkReader.Valid, ChunkReader.Rest;
    hide RecordReader.Ready, RecordReader.Valid, RecordReader.Rest;
    MergeStep(w.plan, w.ndf, r.Rest(), q.Rest());
    if q.id.rid != 0 {
      if r.id.rid != 0 {
        if r.id.rid < q.id.rid {
          PutChunk(w, r);
        } else if q.id.rid < r.id.rid {
          PutRecord(w, q);
        } else if q.id.sid != 0 {
          if r.id.sid < q.id.sid {
            PutChunk(w, r);
          } else {
            if q.id.sid == r.id.sid {
              r.Skip();
            }
            PutRecord(w, q);
          }
        } else {
          r.Skip();
        }
      } else {
        PutRecord(w, q);
      }
    } else {
      PutChunk(w, r);
    }
  }

  /** buffer_flush, for one term: the merge of its chunk image `sc` and its record list. */
  method MergeTerm(sc: seq<byte>, mem: Mem, head: nat, ghost ps: seq<Posting>, ghost c: Content, ghost l: seq<nat>)
    returns (w: PostingWriter)
    requires Holds(sc, ps) && TermRecords(mem, c, head, l)
    ensures fresh(w) && Sorted(NONE, w.plan)
    ensures (forall k :: 0 <= k < |l| ==> l[k] in c) && Buffered(Entries(c, l))
    ensures w.plan == Merge(ps, Entries(c, l)) && w.ndf == |w.plan|
    ensures w.tc == Headers(CLEAR, NONE, w.plan) && w.tp == Bodies(w.plan)
    ensures w.ndf > 0 ==> var p := w.plan[w.ndf - 1]; w.id == p.id && w.tf == |p.gaps| && w.score == p.score
  {
    hide Merge, Headers, Bodies, TermRecords, Holds, RecordBytes, Sorted, PendingIs, Buffered;
    hide PostingWriter.Valid, ChunkReader.Ready, ChunkReader.Valid, ChunkReader.Rest;
    hide RecordReader.Ready, RecordReader.Valid, RecordReader.Rest;
    HoldsSorted(sc, ps);
    ChainEntries(mem, c, head, l);
    ghost var b := Entries(c, l);
    MergePlan(ps, b);
    w := new PostingWriter(Merge(ps, b));
    var r := new ChunkReader(sc, ps);
    var q := new RecordReader(mem, head, c, l);
    r.Skip();
    q.Get();
    assert b[0..] == b;
    while r.id.rid != 0 || q.id.rid != 0
      invariant w.Valid() && r.Ready() && q.Ready()
      invariant InStep(w.plan, w.ndf, r.Rest(), q.Rest())
      decreases |r.Rest()| + |q.Rest()|
    {
      MergeRound(w, r, q);
    }
    MergeStep(w.plan, w.ndf, [], []);
    w.Finish();
    LastPending(w.plan, w.ndf, w.id, w.tf, w.score, w.dgap, w.sgap);
  }

  lemma LastPending(plan: seq<Posting>, n: nat, id: DocId, tf: u32, score: u32, dgap: u32, sgap: u32)
    requires n <= |plan| && PendingIs(plan, n, id, tf, score, dgap, sgap)
    ensures n > 0 ==> var p := plan[n - 1]; id == p.id && tf == |p.gaps| && score == p.score
  {}

  lemma MergePlan(ps: seq<Posting>, b: seq<Posting>)
    requires Sorted(NONE, ps) && Buffered(b)
    ensures Sorted(NONE, Merge(ps, b))
  {
    MergeSorted(NONE, ps, b);
  }

  lemma HoldsSorted(s: seq<byte>, ps: seq<Posting>)
    requires Holds(s, ps)
    ensures Sorted(NONE, ps)
  {}
}
