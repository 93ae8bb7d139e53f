/**
 * What a term's chunk and buffer mean together (`lib/inv.c`, the merge of buffer_flush and
 * of sen_inv_cursor_next), and the map of postings an index stands for.
 */
module Merging {
  import opened ByteCodec
  import opened PostingCodec
  import opened Records
  import opened BufferList

  // ---------------------------------------------------------------- the merge

  function Live(e: Posting): seq<Posting> {
    if Adds(e) then [e] else []
  }

  /** The merge of chunk postings `c` and buffer records `b`, both in increasing order. */
  function Merge(c: seq<Posting>, b: seq<Posting>): seq<Posting>
    decreases |c| + |b|
  {
    if |b| == 0 then c
    else if |c| == 0 || b[0].id.rid < c[0].id.rid then Live(b[0]) + Merge(c, b[1..])
    else if c[0].id.rid < b[0].id.rid then [c[0]] + Merge(c[1..], b)
    else if b[0].id.sid == 0 then Merge(c[1..], b)
    else if c[0].id.sid < b[0].id.sid then [c[0]] + Merge(c[1..], b)
    else Live(b[0]) + Merge(if b[0].id.sid == c[0].id.sid then c[1..] else c, b[1..])
  }

  /** Records as buffers hold them: in order, and valid. */
  ghost predicate Buffered(b: seq<Posting>) {
    Ordered(b) && forall i :: 0 <= i < |b| ==> ValidRecord(b[i])
  }

  ghost predicate Superseded(b: seq<Posting>, id: DocId) {
    exists y :: y in b && Kills(y.id, id)
  }

  lemma TailBuffered(b: seq<Posting>)
    requires Buffered(b) && |b| > 0
    ensures Buffered(b[1..]) && ValidRecord(b[0])
    ensures forall y :: y in b[1..] ==> Lt(b[0].id, y.id)
    ensures forall y :: y in b <==> y == b[0] || y in b[1..]
  {}

  lemma TailSorted(prev: DocId, c: seq<Posting>)
    requires Sorted(prev, c) && |c| > 0
    ensures Sorted(prev, c[1..]) && Sorted(c[0].id, c[1..]) && Stored(c[0])
    ensures forall y :: y in c[1..] ==> Lt(c[0].id, y.id)
    ensures forall y :: y in c <==> y == c[0] || y in c[1..]
  {}

  /** A posting survives the merge iff it is in the chunk and not superseded, or is added by the buffer. */
  lemma {:induction false} MergeMembers(c: seq<Posting>, b: seq<Posting>, x: Posting)
    requires Sorted(NONE, c) && Buffered(b)
    ensures x in Merge(c, b) <==>
        || (x in b && x.id.sid >= 1 && |x.gaps| >= 1)
        || (x in c && forall y :: y in b ==> y.id.rid != x.id.rid || (y.id.sid != 0 && y.id.sid != x.id.sid))
    ensures x in Merge(c, b) <==> (x in c && !Superseded(b, x.id)) || (x in b && Adds(x))
    decreases |c| + |b|
  {
    assert Superseded(b, x.id) <==>
        exists y :: y in b && y.id.rid == x.id.rid && (y.id.sid == 0 || y.id.sid == x.id.sid);
    if |b| > 0 {
      TailBuffered(b);
      if |c| > 0 { TailSorted(NONE, c); }
      if |c| == 0 || b[0].id.rid < c[0].id.rid {
        MergeMembers(c, b[1..], x);
        SplitSuperseded(b, x.id);
      } else if c[0].id.rid < b[0].id.rid || (b[0].id.sid != 0 && c[0].id.sid < b[0].id.sid) {
        MergeMembers(c[1..], b, x);
        assert !Superseded(b, c[0].id);
      } else if b[0].id.sid == 0 {
        MergeMembers(c[1..], b, x);
        assert Superseded(b, c[0].id);
      } else {
        MergeMembers(if b[0].id.sid == c[0].id.sid then c[1..] else c, b[1..], x);
        SplitSuperseded(b, x.id);
      }
    }
  }

  lemma SplitSuperseded(b: seq<Posting>, id: DocId)
    requires |b| > 0
    ensures Superseded(b, id) <==> Kills(b[0].id, id) || Superseded(b[1..], id)
  {}

  /** The merge is again a strictly increasing list of postings worth storing. */
  lemma {:induction false} MergeSorted(prev: DocId, c: seq<Posting>, b: seq<Posting>)
    requires Sorted(prev, c) && Buffered(b)
    requires forall y :: y in b && Adds(y) ==> Lt(prev, y.id)
    ensures Sorted(prev, Merge(c, b))
    decreases |c| + |b|, 0
  {
    if |b| > 0 {
      TailBuffered(b);
      if |c| > 0 { TailSorted(prev, c); }
      if |c| == 0 || b[0].id.rid < c[0].id.rid {
        MergeLive(prev, b[0], c, b[1..]);
      } else if c[0].id.rid < b[0].id.rid || (b[0].id.sid != 0 && c[0].id.sid < b[0].id.sid) {
        assert forall y :: y in b && Adds(y) ==> Lt(c[0].id, y.id);
        MergeSorted(c[0].id, c[1..], b);
        SortedCons(prev, c[0], Merge(c[1..], b));
      } else if b[0].id.sid == 0 {
        MergeSorted(prev, c[1..], b);
      } else {
        MergeLive(prev, b[0], if b[0].id.sid == c[0].id.sid then c[1..] else c, b[1..]);
      }
    }
  }

  lemma MergeLive(prev: DocId, e: Posting, c: seq<Posting>, b: seq<Posting>)
    requires ValidRecord(e) && Buffered(b) && Sorted(prev, c) && Sorted(e.id, c)
    requires Adds(e) ==> Lt(prev, e.id)
    requires forall y :: y in b ==> Lt(e.id, y.id) && (Adds(y) ==> Lt(prev, y.id))
    ensures Sorted(prev, Live(e) + Merge(c, b))
    decreases |c| + |b|, 1
  {
    if Adds(e) {
      MergeSorted(e.id, c, b);
      SortedCons(prev, e, Merge(c, b));
    } else {
      MergeSorted(prev, c, b);
      assert [] + Merge(c, b) == Merge(c, b);
    }
  }

  lemma SortedCons(prev: DocId, p: Posting, ps: seq<Posting>)
    requires Stored(p) && Lt(prev, p.id) && Sorted(p.id, ps)
    ensures Sorted(prev, [p] + ps)
  {}

  // ---------------------------------------------------------------- the map

  datatype Data = Data(score: u32, positions: seq<u32>)

  /** (rid, sid) -> score and positions. */
  type Postings = map<DocId, Data>

  function DataOf(p: Posting): Data {
    Data(p.score, PositionsOf(0, p.gaps))
  }

  ghost function ToMap(ps: seq<Posting>): (m: Postings)
    requires Sorted(NONE, ps)
  {
    map p | p in ps :: p.id := DataOf(p)
  }

  /** The last write wins: an update replaces a posting, and section 0 erases its whole record. */
  ghost function Apply(m: Postings, e: Posting): Postings {
    var kept := map id | id in m && !Kills(e.id, id) :: m[id];
    if Adds(e) then kept[e.id := DataOf(e)] else kept
  }

  lemma InToMap(ps: seq<Posting>, p: Posting)
    requires Sorted(NONE, ps) && p in ps
    ensures p.id in ToMap(ps) && ToMap(ps)[p.id] == DataOf(p)
  {}

  /** Putting a record into the buffer applies it to the map. */
  lemma PutApplies(c: seq<Posting>, b: seq<Posting>, e: Posting)
    requires Sorted(NONE, c) && Buffered(b) && ValidRecord(e)
    ensures Buffered(PutSpec(b, e))
    ensures Sorted(NONE, Merge(c, b)) && Sorted(NONE, Merge(c, PutSpec(b, e)))
    ensures ToMap(Merge(c, PutSpec(b, e))) == Apply(ToMap(Merge(c, b)), e)
  {
    var b2 := PutSpec(b, e);
    PutSpecMeaning(b, e);
    assert Buffered(b2) by {
      forall i | 0 <= i < |b2| ensures ValidRecord(b2[i]) { assert b2[i] in b2; }
    }
    MergeSorted(NONE, c, b);
    MergeSorted(NONE, c, b2);
    forall x ensures x in Merge(c, b2) <==> (x in Merge(c, b) && !Kills(e.id, x.id)) || (x == e && Adds(e)) {
      MergeMembers(c, b, x);
      MergeMembers(c, b2, x);
      SupersededPut(b, e, b2, x.id);
    }
    SameMap(Merge(c, b), Merge(c, b2), e);
  }

  lemma SupersededPut(b: seq<Posting>, e: Posting, b2: seq<Posting>, id: DocId)
    requires forall x :: x in b2 <==> x == e || (x in b && !Kills(e.id, x.id))
    ensures Superseded(b2, id) <==> Superseded(b, id) || Kills(e.id, id)
  {}

  lemma SameMap(ps: seq<Posting>, qs: seq<Posting>, e: Posting)
    requires Sorted(NONE, ps) && Sorted(NONE, qs)
    requires forall x :: x in qs <==> (x in ps && !Kills(e.id, x.id)) || (x == e && Adds(e))
    ensures ToMap(qs) == Apply(ToMap(ps), e)
  {
    var m, m2 := ToMap(qs), Apply(ToMap(ps), e);
    forall id ensures id in m <==> id in m2 {
      if id in m {
        var p :| p in qs && p.id == id;
        if p in ps { InToMap(ps, p); }
      }
      if id in m2 && !(Adds(e) && id == e.id) {
        var p :| p in ps && p.id == id;
        assert p in qs;
        InToMap(qs, p);
      }
      if Adds(e) && id == e.id {
        assert e in qs;
        InToMap(qs, e);
      }
    }
    forall id | id in m ensures m[id] == m2[id] {
      var p :| p in qs && p.id == id;
      InToMap(qs, p);
      if p in ps && !Kills(e.id, id) { InToMap(ps, p); }
    }
  }

  // ---------------------------------------------------------------- the list of a map

  /** Lists in order with the same postings are the same. */
  lemma {:induction false} SameMembers(prev: DocId, ps: seq<Posting>, qs: seq<Posting>)
    requires Sorted(prev, ps) && Sorted(prev, qs)
    requires forall x :: x in ps <==> x in qs
    ensures ps == qs
    decreases |ps|
  {
    if |ps| == 0 {
      SomeMember(qs);
    } else {
      assert ps[0] in qs;
      assert qs[0] in ps;
      TailSorted(prev, ps);
      TailSorted(prev, qs);
      forall x ensures x in ps[1..] <==> x in qs[1..] {
        assert !(x in ps[1..] && x == ps[0]) && !(x in qs[1..] && x == qs[0]);
      }
      SameMembers(ps[0].id, ps[1..], qs[1..]);
      assert ps == [ps[0]] + ps[1..] && qs == [qs[0]] + qs[1..];
    }
  }

  lemma SomeMember(ps: seq<Posting>)
    ensures ps == [] || exists p :: p in ps
  {
    assert ps != [] ==> ps[0] in ps;
  }

  lemma SameData(p: Posting, q: Posting)
    requires p.id == q.id && DataOf(p) == DataOf(q)
    ensures p == q
  {
    GapsBack(0, p.gaps);
    GapsBack(0, q.gaps);
  }

  /** A term's list is determined by its map: what a cursor lists is the map, in order. */
  lemma ListOfMap(ps: seq<Posting>, qs: seq<Posting>)
    requires Sorted(NONE, ps) && Sorted(NONE, qs) && ToMap(ps) == ToMap(qs)
    ensures ps == qs
  {
    forall x ensures x in ps <==> x in qs {
      if x in ps {
        MemberOf(ps, qs, x);
      }
      if x in qs {
        MemberOf(qs, ps, x);
      }
    }
    SameMembers(NONE, ps, qs);
  }

  lemma MemberOf(ps: seq<Posting>, qs: seq<Posting>, x: Posting)
    requires Sorted(NONE, ps) && Sorted(NONE, qs) && ToMap(ps) == ToMap(qs) && x in ps
    ensures x in qs
  {
    InToMap(ps, x);
    var y :| y in qs && y.id == x.id;
    InToMap(qs, y);
    SameData(x, y);
  }
}
