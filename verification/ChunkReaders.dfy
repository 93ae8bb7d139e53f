/**
 * Reading a term's postings back out of its chunk image (`lib/inv.c`, GETNEXTC_ and GETNEXTC
 * of buffer_flush).
 */
module ChunkReaders {
  import opened ByteCodec
  import opened PostingCodec
  import opened PostingWriters

  /** The bytes a term occupies in a chunk: the header length, the headers, the positions. */
  function Image(ps: seq<Posting>): seq<byte>
    requires Sorted(NONE, ps) && |Headers(CLEAR, NONE, ps)| < TWO32
  {
    EncB(|Headers(CLEAR, NONE, ps)|) + (Headers(CLEAR, NONE, ps) + Bodies(ps))
  }

  /** The bytes `s` are what a chunk keeps for the postings `ps`; a new term has none. */
  ghost predicate Holds(s: seq<byte>, ps: seq<Posting>) {
    && Sorted(NONE, ps)
    && |Headers(CLEAR, NONE, ps)| < TWO32
    && (s == Image(ps) || (s == [] && ps == []))
  }

  /** The postings a chunk image decodes to. */
  function ReadImage(s: seq<byte>): seq<Posting> {
    if s == [] then []
    else
      var (o, t) := DecB(s);
      if o <= |t| then ReadPostings(CLEAR, NONE, t[..o], t[o..]) else []
  }

  lemma ImageParts(ps: seq<Posting>)
    requires Sorted(NONE, ps) && |Headers(CLEAR, NONE, ps)| < TWO32
    ensures Image(ps) != []
    ensures
      var (o, t) := DecB(Image(ps));
      o <= |t| && t[..o] == Headers(CLEAR, NONE, ps) && t[o..] == Bodies(ps)
  {
    hide EncB, DecB, Headers, Bodies;
    DecEncB(|Headers(CLEAR, NONE, ps)|, Headers(CLEAR, NONE, ps) + Bodies(ps));
  }

  /** A chunk image round-trips, for every increasing list of postings. */
  lemma ReadImageBack(s: seq<byte>, ps: seq<Posting>)
    requires Holds(s, ps)
    ensures ReadImage(s) == ps
  {
    if s != [] {
      ImageParts(ps);
      ReadPostingsBack(CLEAR, NONE, ps);
    }
  }

  /** SEN_B_SKIP, `n` times. */
  method SkipGaps(spp: seq<byte>, n: nat, ghost gaps: seq<u32>, ghost rest: seq<byte>) returns (s: seq<byte>)
    requires n == |gaps| && spp == EncGaps(gaps) + rest
    ensures s == rest
  {
    hide SkipB;
    s := spp;
    var i: nat := n;
    assert gaps[|gaps| - i..] == gaps;
    while i > 0
      invariant i <= |gaps| && s == EncGaps(gaps[|gaps| - i..]) + rest
    {
      SkipOne(gaps[|gaps| - i..], rest);
      assert gaps[|gaps| - i..][1..] == gaps[|gaps| - (i - 1)..];
      s := SkipB(s);
      i := i - 1;
    }
    assert gaps[|gaps| - i..] == [];
  }

  class ChunkReader {
    var scp: seq<byte>     // headers still to read
    var spp: seq<byte>     // position codes, from those of the current posting on
    var id: DocId          // the current posting; rid is 0 when there is none
    var tf: u32
    var score: u32
    var flags: Flags
    ghost const all: seq<Posting>
    ghost var n: nat       // headers read
    ghost var on: bool     // the last one read is current

    ghost predicate Heads()
      reads this
    {
      && Sorted(NONE, all) && n <= |all|
      && Sorted(Before(all, n), all[n..])
      && scp == Headers(flags, Before(all, n), all[n..])
      && (on <==> id.rid != 0)
      && (on ==> n > 0 && id == all[n - 1].id && tf == |all[n - 1].gaps| && score == all[n - 1].score)
      && (!on ==> n == |all| || (n == 0 && id == NONE))
    }

    ghost predicate Valid()
      reads this
    {
      && Heads()
      && (on ==> spp == Bodies(all[n - 1..]))
      && (!on && n == 0 < |all| ==> spp == Bodies(all))
    }

    /** The postings not passed yet, the current one first. */
    ghost function Rest(): (r: seq<Posting>)
      requires Valid()
      reads this
    {
      all[if on then n - 1 else n..]
    }

    /** There is a current posting iff there are postings left, and it is the first of them. */
    ghost predicate Ready()
      reads this
      ensures Ready() ==>
                && Valid() && (id.rid != 0 <==> Rest() != [])
                && (Rest() != [] ==> Rest()[0].id == id)
    {
      Valid() && (on || n == |all|)
    }

    constructor (s: seq<byte>, ghost ps: seq<Posting>)
      requires Holds(s, ps)
      ensures Valid() && all == ps && !on && id.rid == 0 && Rest() == ps && n == 0
    {
      hide EncB, DecB, Headers, Bodies, Image;
      ImageParts(ps);
      if s != [] {
        var (o, t) := DecB(s);
        scp, spp := t[..o], t[o..];
      } else {
        EmptyImage();
        scp, spp := [], [];
      }
      id, tf, score, flags := NONE, 0, 0, CLEAR;
      all, n, on := ps, 0, false;
      new;
      assert all[0..] == all;
    }

    /** GETNEXTC_: with the current posting's positions behind `spp`, read the next header. */
    method Step()
      requires Heads() && (scp != [] ==> spp == Bodies(all[n..]))
      modifies this
      ensures Ready() && Rest() == all[old(n)..] && (on <==> old(n) < |all|)
    {
      hide Headers, Bodies, ReadHeader;
      NoHeaders(flags, Before(all, n), all[n..]);
      if scp != [] {
        ReadNext(flags, all, n);
        var h := ReadHeader(flags, id, scp);
        flags, id, tf, score, scp := h.flags, h.id, h.tf, h.score, h.rest;
        n, on := n + 1, true;
      } else {
        id := id.(rid := 0);
        on := false;
      }
    }

    /** GETNEXTC: pass over the current posting without using its positions. */
    method Skip()
      requires Valid()
      modifies this
      ensures Ready() && (on <==> old(n) < |all|)
      ensures Rest() == old(if id.rid != 0 then Rest()[1..] else Rest())
    {
      hide Headers, Bodies;
      if scp != [] && id.rid != 0 {
        BodiesAt(all, n - 1);
        spp := SkipGaps(spp, tf, all[n - 1].gaps, Bodies(all[n..]));
      }
      NoHeaders(flags, Before(all, n), all[n..]);
      assert all[0..] == all;
      Step();
    }
  }

  lemma EmptyImage()
    ensures Headers(CLEAR, NONE, []) == [] && Bodies([]) == []
  {}

  lemma NoHeaders(f: Flags, prev: DocId, ps: seq<Posting>)
    requires Sorted(prev, ps)
    ensures Headers(f, prev, ps) == [] <==> ps == []
  {}

  lemma ReadNext(f: Flags, all: seq<Posting>, n: nat)
    requires Sorted(NONE, all) && n < |all| && Sorted(Before(all, n), all[n..])
    ensures Sorted(all[n].id, all[n + 1..]) && all[n].id.rid != 0
    ensures
      var h := ReadHeader(f, Before(all, n), Headers(f, Before(all, n), all[n..]));
      && h.id == all[n].id && h.tf == |all[n].gaps| && h.score == all[n].score
      && h.rest == Headers(h.flags, all[n].id, all[n + 1..])
  {
    hide ReadHeader, FlagsFor;
    assert all[n..][1..] == all[n + 1..];
    assert all[n..][0] == all[n];
    ReadHeadersBack(f, Before(all, n), all[n..]);
  }

  lemma SkipOne(gaps: seq<u32>, rest: seq<byte>)
    requires |gaps| > 0
    ensures SkipB(EncGaps(gaps) + rest) == EncGaps(gaps[1..]) + rest
  {
    hide EncB, SkipB;
    DecEncB(gaps[0], EncGaps(gaps[1..]) + rest);
    Assoc(EncB(gaps[0]), EncGaps(gaps[1..]), rest);
  }
}
