/**
 * The record lists of a buffer segment (`lib/inv.c`, check_jump, set_jump_r, buffer_put).
 *
 * A buffer keeps the updates of a term in the order of (rid, sid), as a singly linked list
 * threaded through the segment, with a `jump` field in each record as a shortcut.
 * Record 0 ends a list, and `jump == 1` marks a record that was unlinked.
 */
module BufferList {
  import opened ByteCodec
  import opened PostingCodec
  import opened Records

  datatype Rec = Rec(step: nat, jump: nat, data: seq<byte>)

  type Mem = map<nat, Rec>

  /** What each allocated record encodes. */
  type Content = map<nat, Posting>

  // ---------------------------------------------------------------- reference list

  /** A new record supersedes an older one of the same section; at section 0, all of its record's. */
  predicate Kills(e: DocId, id: DocId) {
    id.rid == e.rid && (e.sid == 0 || id.sid == e.sid)
  }

  function DropKilled(b: seq<Posting>, e: DocId): seq<Posting> {
    if |b| > 0 && Kills(e, b[0].id) then DropKilled(b[1..], e) else b
  }

  /** What buffer_put is for: insertion into an ordered list, the last write winning. */
  function PutSpec(b: seq<Posting>, e: Posting): seq<Posting> {
    if |b| > 0 && Lt(b[0].id, e.id) then [b[0]] + PutSpec(b[1..], e)
    else [e] + DropKilled(b, e.id)
  }

  ghost predicate Ordered(b: seq<Posting>) {
    forall i, j :: 0 <= i < j < |b| ==> Lt(b[i].id, b[j].id)
  }

  lemma {:induction false} DropKilledAt(b: seq<Posting>, e: DocId, d: nat)
    requires d <= |b|
    requires forall i :: 0 <= i < d ==> Kills(e, b[i].id)
    requires d < |b| ==> !Kills(e, b[d].id)
    ensures DropKilled(b, e) == b[d..]
    decreases d
  {
    if d > 0 {
      DropKilledAt(b[1..], e, d - 1);
    }
  }

  lemma {:induction false} PutSpecAt(b: seq<Posting>, e: Posting, k: nat, d: nat)
    requires k + d <= |b|
    requires forall i :: 0 <= i < k ==> Lt(b[i].id, e.id)
    requires k < |b| ==> !Lt(b[k].id, e.id)
    requires forall i :: k <= i < k + d ==> Kills(e.id, b[i].id)
    requires k + d < |b| ==> !Kills(e.id, b[k + d].id)
    ensures PutSpec(b, e) == b[..k] + [e] + b[k + d..]
    decreases k
  {
    if k > 0 {
      PutSpecAt(b[1..], e, k - 1, d);
      assert b[1..][k - 1 + d..] == b[k + d..];
      assert b[..k] == [b[0]] + b[1..][..k - 1];
    } else {
      DropKilledAt(b, e.id, d);
    }
  }

  /** Last write wins: the new record, and every older one it does not supersede, still in order. */
  lemma {:induction false} PutSpecMeaning(b: seq<Posting>, e: Posting)
    requires Ordered(b)
    ensures Ordered(PutSpec(b, e))
    ensures forall x :: x in PutSpec(b, e) <==>
        x == e || (x in b && !(x.id.rid == e.id.rid && (e.id.sid == 0 || x.id.sid == e.id.sid)))
    decreases |b|
  {
    if |b| > 0 && Lt(b[0].id, e.id) {
      PutSpecMeaning(b[1..], e);
      var r := PutSpec(b[1..], e);
      assert forall x :: x in b <==> x == b[0] || x in b[1..];
      assert forall x :: x in [b[0]] + r <==> x == b[0] || x in r;
      assert forall i :: 0 <= i < |r| ==> r[i] in r && Lt(b[0].id, r[i].id);
    } else {
      DropKilledMeaning(b, e.id);
      var r := DropKilled(b, e.id);
      assert forall x :: x in [e] + r <==> x == e || x in r;
      forall i | 0 <= i < |r| ensures Lt(e.id, r[i].id) {
        assert r[i] in r;
      }
    }
  }

  lemma {:induction false} DropKilledMeaning(b: seq<Posting>, e: DocId)
    requires Ordered(b) && (|b| > 0 ==> !Lt(b[0].id, e))
    ensures Ordered(DropKilled(b, e))
    ensures forall x :: x in DropKilled(b, e) <==> x in b && !Kills(e, x.id)
    decreases |b|
  {
    if |b| > 0 {
      assert forall x :: x in b <==> x == b[0] || x in b[1..];
      if Kills(e, b[0].id) {
        DropKilledMeaning(b[1..], e);
      }
    }
  }

  // ---------------------------------------------------------------- the linked list

  function Next(l: seq<nat>, k: nat): nat {
    if k < |l| then l[k] else 0
  }

  /** From `head`, the records `l` are linked in strictly increasing order of their ids. */
  ghost predicate Chain(m: Mem, c: Content, head: nat, l: seq<nat>) {
    && head == Next(l, 0)
    && (forall k :: 0 <= k < |l| ==> l[k] > 1 && l[k] in m && l[k] in c)
    && (forall i, j :: 0 <= i < j < |l| ==>
          Lt(c[l[i]].id, c[l[j]].id) && (j == i + 1 ==> m[l[i]].step == l[j]))
    && (|l| > 0 ==> m[l[|l| - 1]].step == 0)
  }

  /**
   * `own` are all records ever put into this list: unlinked ones are marked, and every jump of a
   * linked one is 0 or leads to a record with a larger id.
   */
  ghost predicate Jumps(m: Mem, c: Content, l: seq<nat>, own: set<nat>) {
    && (forall p :: p in own ==> p > 1 && p in m && p in c)
    && (forall p :: p in l ==> p in own)
    && (forall p {:trigger p in l} {:trigger m[p].jump} :: p in own ==> (p in l <==> m[p].jump != 1))
    && (forall p {:trigger m[p].jump} :: p in own && m[p].jump > 1 ==> m[p].jump in own && Lt(c[p].id, c[m[p].jump].id))
  }

  /** Reading a record's bytes gives the id it was written with. */
  ghost predicate IdsRead(m: Mem, c: Content) {
    m.Keys == c.Keys && forall p :: p in m ==> ReadId(m[p].data).0 == c[p].id
  }

  /** Only jumps of records in `own` differ. */
  ghost predicate SameButJumps(m: Mem, m2: Mem, own: set<nat>) {
    && m.Keys == m2.Keys
    && (forall p {:trigger m2[p]} :: p in m ==> m2[p].step == m[p].step && m2[p].data == m[p].data)
    && (forall p {:trigger m2[p]} :: p in m && p !in own ==> m2[p] == m[p])
  }

  /** Some linked record leads to itself only once: the index of a linked record is unique. */
  lemma IndexOf(m: Mem, c: Content, head: nat, l: seq<nat>, p: nat) returns (k: nat)
    requires Chain(m, c, head, l) && p in l
    ensures k < |l| && l[k] == p
  {
    k :| k < |l| && l[k] == p;
  }

  function Entries(c: Content, l: seq<nat>): (b: seq<Posting>)
    requires forall k :: 0 <= k < |l| ==> l[k] in c
    ensures |b| == |l|
  {
    seq(|l|, k requires 0 <= k < |l| => c[l[k]])
  }

  lemma NotLinked(m: Mem, c: Content, l: seq<nat>, own: set<nat>, pos: nat)
    requires Jumps(m, c, l, own) && pos !in own
    ensures pos !in l
  {}

  lemma PlacedLinks(m: Mem, c: Content, head: nat, l: seq<nat>, k: nat, d: nat)
    requires Chain(m, c, head, l) && k + d <= |l|
    ensures k > 0 ==> l[k - 1] > 1 && l[k - 1] in m
    ensures forall i :: 0 <= i < |l| ==> l[i] in m && l[i] in c
  {}

  lemma StepAt(m: Mem, c: Content, head: nat, l: seq<nat>, k: nat)
    requires Chain(m, c, head, l) && k < |l|
    ensures m[l[k]].step == Next(l, k + 1)
  {}

  lemma ChainSameButJumps(m: Mem, m2: Mem, c: Content, head: nat, l: seq<nat>, own: set<nat>)
    requires Chain(m, c, head, l) && SameButJumps(m, m2, own)
    ensures Chain(m2, c, head, l)
  {}

  /** check_jump: is `j` a place that record `r` may jump to? */
  function CheckJump(m: Mem, r: nat, j: nat): (ok: bool)
    requires r in m && (j > 1 ==> j in m)
  {
    j <= 1 ||
    (m[j].step != r && Lt(ReadId(m[r].data).0, ReadId(m[j].data).0))
  }

  /** Redirecting the jump of a linked record to a larger one keeps the list. */
  lemma SetJump(m: Mem, c: Content, head: nat, l: seq<nat>, own: set<nat>, r: nat, j: nat)
    requires Chain(m, c, head, l) && Jumps(m, c, l, own) && IdsRead(m, c)
    requires r in l && r in m && r in c && j > 1 && j in own && j in c && Lt(c[r].id, c[j].id)
    ensures
      var m2 := m[r := m[r].(jump := j)];
      Chain(m2, c, head, l) && Jumps(m2, c, l, own) && IdsRead(m2, c) && SameButJumps(m, m2, own)
  {
    hide ReadId;
    var m2 := m[r := m[r].(jump := j)];
    assert r in own;
    ChainSameButJumps(m, m2, c, head, l, own);
  }

  /** ... and that is the only thing set_jump_r does, whatever its arguments. */
  lemma RedirectJump(m: Mem, c: Content, head: nat, l: seq<nat>, own: set<nat>, r: nat, j: nat)
    requires Chain(m, c, head, l) && Jumps(m, c, l, own) && IdsRead(m, c)
    requires r in l && r in m && j > 1 && j in own && j in m && CheckJump(m, r, j)
    ensures
      var m2 := m[r := m[r].(jump := j)];
      Chain(m2, c, head, l) && Jumps(m2, c, l, own) && IdsRead(m2, c) && SameButJumps(m, m2, own)
  {
    hide ReadId, Chain, Jumps;
    assert r in c && j in c && Lt(c[r].id, c[j].id);
    SetJump(m, c, head, l, own, r, j);
  }

  lemma OwnedFacts(m: Mem, c: Content, l: seq<nat>, own: set<nat>, p: nat)
    requires Jumps(m, c, l, own) && p in own
    ensures p > 1 && p in m && p in c && (p in l <==> m[p].jump != 1)
  {}

  lemma LinkedFacts(m: Mem, c: Content, head: nat, l: seq<nat>, own: set<nat>, r: nat)
    requires Chain(m, c, head, l) && Jumps(m, c, l, own) && r in l
    ensures r > 1 && r in m && r in c && r in own && m[r].jump != 1
    ensures m[r].step == 0 || m[r].step in l
    ensures m[r].jump == 0 || (m[r].jump in own && m[r].jump > 1)
  {
    assert r in own;
    var k := IndexOf(m, c, head, l, r);
    StepAt(m, c, head, l, k);
  }

  /** The records l[k], ..., l[k + d - 1]. */
  ghost function Range(l: seq<nat>, k: nat, d: nat): (r: set<nat>)
    requires k + d <= |l|
  {
    set i | k <= i < k + d :: l[i]
  }

  /** `m2` is `m` with the records of that range marked deleted. */
  ghost predicate Marked(m: Mem, m2: Mem, l: seq<nat>, k: nat, d: nat)
    requires k + d <= |l|
  {
    && m.Keys == m2.Keys
    && forall p {:trigger m2[p]} :: p in m ==> m2[p] == if p in Range(l, k, d) then m[p].(jump := 1) else m[p]
  }

  lemma RangeIn(l: seq<nat>, k: nat, d: nat, p: nat)
    requires k + d <= |l| && p in Range(l, k, d)
    ensures p in l
  {}

  lemma MarkNone(m: Mem, l: seq<nat>, k: nat)
    requires k <= |l|
    ensures Marked(m, m, l, k, 0)
  {}

  lemma MarkOne(m: Mem, m2: Mem, l: seq<nat>, k: nat, d: nat)
    requires k + d < |l| && Marked(m, m2, l, k, d) && l[k + d] in m
    ensures Marked(m, m2[l[k + d] := m2[l[k + d]].(jump := 1)], l, k, d + 1)
  {
    assert Range(l, k, d + 1) == Range(l, k, d) + {l[k + d]};
  }

  lemma MarkedKeys(m: Mem, m2: Mem, l: seq<nat>, k: nat, d: nat)
    requires k + d <= |l| && Marked(m, m2, l, k, d)
    ensures m.Keys == m2.Keys
  {}

  lemma MarkNext(m: Mem, m2: Mem, c: Content, head: nat, l: seq<nat>, k: nat, d: nat)
    requires Chain(m, c, head, l) && IdsRead(m, c)
    requires k + d < |l| && Marked(m, m2, l, k, d)
    ensures l[k + d] in m2 && l[k + d] in c
    ensures
      var m3 := m2[l[k + d] := m2[l[k + d]].(jump := 1)];
      Marked(m, m3, l, k, d + 1) && m3[l[k + d]].step == Next(l, k + d + 1) && IdsRead(m3, c)
    ensures Next(l, k + d + 1) == 0 <==> k + d + 1 == |l|
    ensures k + d + 1 < |l| ==> l[k + d + 1] in m && l[k + d + 1] in c && Lt(c[l[k + d]].id, c[l[k + d + 1]].id)
  {
    hide ReadId;
    MarkOne(m, m2, l, k, d);
    StepAt(m, c, head, l, k + d);
  }

  /** Where the new record goes: behind the k smaller ones, instead of the d it supersedes. */
  ghost predicate Place(c: Content, l: seq<nat>, id: DocId, k: nat, d: nat) {
    && k + d <= |l|
    && (forall i :: 0 <= i < |l| ==> l[i] in c)
    && (forall i :: 0 <= i < k ==> Lt(c[l[i]].id, id))
    && (forall i :: k <= i < k + d ==> Kills(id, c[l[i]].id))
    && (forall i :: k + d <= i < |l| ==> Lt(id, c[l[i]].id) && !Kills(id, c[l[i]].id))
  }

  function Insert(l: seq<nat>, k: nat, d: nat, pos: nat): (l2: seq<nat>)
    requires k + d <= |l|
    ensures |l2| == |l| - d + 1
  {
    l[..k] + [pos] + l[k + d..]
  }

  /** The memory after the new record is linked in: `*lastp = pos`. */
  function Linked(m: Mem, l: seq<nat>, k: nat, d: nat, pos: nat, jump: nat): Mem
    requires k + d <= |l| && pos in m && (k > 0 ==> l[k - 1] in m)
  {
    var m1 := m[pos := m[pos].(step := Next(l, k + d), jump := jump)];
    if k == 0 then m1 else m1[l[k - 1] := m1[l[k - 1]].(step := pos)]
  }

  lemma InsertAt(l: seq<nat>, k: nat, d: nat, pos: nat, i: nat)
    requires k + d <= |l| && i <= |l| - d
    ensures Insert(l, k, d, pos)[i] == if i < k then l[i] else if i == k then pos else l[i + d - 1]
  {}

  lemma LinkedAt(m: Mem, m1: Mem, l: seq<nat>, k: nat, d: nat, pos: nat, jump: nat, p: nat)
    requires k + d <= |l| && Marked(m, m1, l, k, d) && pos in m && pos !in l
    requires forall i :: 0 <= i < |l| ==> l[i] in m
    requires p in m
    ensures
      var m2 := Linked(m1, l, k, d, pos, jump);
      && m2.Keys == m.Keys && m2[p].data == m[p].data
      && m2[p].jump == (if p == pos then jump else if p in Range(l, k, d) then 1 else m[p].jump)
      && m2[p].step == (if k > 0 && p == l[k - 1] then pos else if p == pos then Next(l, k + d) else m[p].step)
      && (p !in l && p != pos ==> m2[p] == m[p])
  {}

  lemma StepsInsert(m: Mem, m1: Mem, c: Content, head: nat, l: seq<nat>, k: nat, d: nat, pos: nat, jump: nat, i: nat)
    requires Chain(m, c, head, l)
    requires pos in m && pos in c && pos !in l && pos > 1
    requires k + d <= |l| && Marked(m, m1, l, k, d)
    requires i <= |l| - d
    ensures
      var m2, l2 := Linked(m1, l, k, d, pos, jump), Insert(l, k, d, pos);
      l2[i] > 1 && l2[i] in m2 && l2[i] in c && m2[l2[i]].step == Next(l2, i + 1)
  {
    var m2, l2 := Linked(m1, l, k, d, pos, jump), Insert(l, k, d, pos);
    InsertAt(l, k, d, pos, i);
    if i + 1 < |l2| { InsertAt(l, k, d, pos, i + 1); }
    LinkedAt(m, m1, l, k, d, pos, jump, l2[i]);
    hide Insert, Linked, Marked;
    if i != k {
      var h := if i < k then i else i + d - 1;
      StepAt(m, c, head, l, h);
      assert h != k - 1 && k > 0 ==> l[h] != l[k - 1];
    }
  }

  lemma OrderInsert(c: Content, l: seq<nat>, k: nat, d: nat, pos: nat)
    requires forall i, j :: 0 <= i < j < |l| && l[i] in c && l[j] in c ==> Lt(c[l[i]].id, c[l[j]].id)
    requires pos in c && Place(c, l, c[pos].id, k, d)
    ensures var l2 := Insert(l, k, d, pos);
      forall i, j :: 0 <= i < j < |l2| ==> l2[i] in c && l2[j] in c && Lt(c[l2[i]].id, c[l2[j]].id)
  {
    var l2 := Insert(l, k, d, pos);
    hide Insert;
    forall i, j | 0 <= i < j < |l2|
      ensures l2[i] in c && l2[j] in c && Lt(c[l2[i]].id, c[l2[j]].id)
    {
      InsertAt(l, k, d, pos, i);
      InsertAt(l, k, d, pos, j);
    }
  }

  lemma ChainInsert(m: Mem, m1: Mem, c: Content, head: nat, l: seq<nat>, k: nat, d: nat, pos: nat, jump: nat)
    requires Chain(m, c, head, l)
    requires pos in m && pos in c && pos !in l && pos > 1
    requires Place(c, l, c[pos].id, k, d)
    requires Marked(m, m1, l, k, d)
    ensures Chain(Linked(m1, l, k, d, pos, jump), c, if k == 0 then pos else head, Insert(l, k, d, pos))
  {
    var m2, l2 := Linked(m1, l, k, d, pos, jump), Insert(l, k, d, pos);
    OrderInsert(c, l, k, d, pos);
    InsertAt(l, k, d, pos, 0);
    hide Insert, Linked, Place, Marked;
    forall i | 0 <= i < |l2|
      ensures l2[i] > 1 && l2[i] in m2 && l2[i] in c
      ensures m2[l2[i]].step == Next(l2, i + 1)
    {
      StepsInsert(m, m1, c, head, l, k, d, pos, jump, i);
    }
  }

  lemma InsertMembers(c: Content, l: seq<nat>, k: nat, d: nat, pos: nat, p: nat)
    requires forall i, j :: 0 <= i < j < |l| && l[i] in c && l[j] in c ==> Lt(c[l[i]].id, c[l[j]].id)
    requires pos in c && Place(c, l, c[pos].id, k, d)
    ensures p in Insert(l, k, d, pos) <==> p == pos || (p in l && p !in Range(l, k, d))
  {
    var a, b := l[..k], l[k + d..];
    assert l == a + l[k..k + d] + b;
    assert p in l <==> p in a || p in Range(l, k, d) || p in b;
    assert p in Insert(l, k, d, pos) <==> p in a || p == pos || p in b;
    assert p in Range(l, k, d) ==> p !in a && p !in b;
  }

  /** Jumps, given only which records are linked and how jumps changed. */
  lemma JumpsFrom(m: Mem, m2: Mem, c: Content, l: seq<nat>, l2: seq<nat>, gone: set<nat>, own: set<nat>, pos: nat,
                  jump: nat)
    requires Jumps(m, c, l, own)
    requires pos in m && pos in c && pos > 1 && m2.Keys == m.Keys && m2[pos].jump == jump
    requires forall p :: p in l2 <==> p == pos || (p in l && p !in gone)
    requires forall p {:trigger p in gone} :: p in gone ==> p in l
    requires forall p {:trigger m2[p].jump} :: p in own ==> p != pos && m2[p].jump == if p in gone then 1 else m[p].jump
    requires jump == 0 || (jump > 1 && jump in own && Lt(c[pos].id, c[jump].id))
    ensures Jumps(m2, c, l2, own + {pos})
  {}

  lemma JumpsInsert(m: Mem, m1: Mem, c: Content, head: nat, l: seq<nat>, own: set<nat>, k: nat, d: nat, pos: nat,
                    jump: nat)
    requires Chain(m, c, head, l) && Jumps(m, c, l, own)
    requires pos in m && pos in c && pos !in own && pos > 1
    requires Place(c, l, c[pos].id, k, d)
    requires Marked(m, m1, l, k, d)
    requires jump == 0 || (jump > 1 && jump in own && Lt(c[pos].id, c[jump].id))
    ensures Jumps(Linked(m1, l, k, d, pos, jump), c, Insert(l, k, d, pos), own + {pos})
  {
    var m2, l2 := Linked(m1, l, k, d, pos, jump), Insert(l, k, d, pos);
    hide Linked, Insert, Place, Marked, Range;
    forall p ensures p in l2 <==> p == pos || (p in l && p !in Range(l, k, d)) {
      InsertMembers(c, l, k, d, pos, p);
    }
    forall p {:trigger m2[p].jump} | p in own
      ensures p != pos && p in m2 && m2[p].jump == if p in Range(l, k, d) then 1 else m[p].jump
    {
      LinkedAt(m, m1, l, k, d, pos, jump, p);
    }
    LinkedAt(m, m1, l, k, d, pos, jump, pos);
    forall p | p in Range(l, k, d) ensures p in l { RangeIn(l, k, d, p); }
    JumpsFrom(m, m2, c, l, l2, Range(l, k, d), own, pos, jump);
  }

  /** Allocating a record that is in no list yet. */
  lemma AddRecord(m: Mem, c: Content, head: nat, l: seq<nat>, own: set<nat>, pos: nat, r: Rec, e: Posting)
    requires Chain(m, c, head, l) && Jumps(m, c, l, own) && pos !in m
    ensures Chain(m[pos := r], c[pos := e], head, l) && Jumps(m[pos := r], c[pos := e], l, own)
  {}

  lemma AddedReads(m: Mem, c: Content, pos: nat, r: Rec, e: Posting)
    requires IdsRead(m, c) && ReadId(r.data).0 == e.id
    ensures IdsRead(m[pos := r], c[pos := e])
  {
    hide ReadId;
  }

  /** What `*lastp` holds behind the first k records of a list. */
  lemma NextAfter(m: Mem, c: Content, head: nat, l: seq<nat>, k: nat)
    requires Chain(m, c, head, l) && k <= |l|
    ensures k == 0 ==> head == Next(l, 0)
    ensures k > 0 ==> l[k - 1] in m && m[l[k - 1]].step == Next(l, k)
    ensures Next(l, k) == 0 <==> k == |l|
    ensures k < |l| ==> l[k] in l && l[k] in c && l[k] in m
    ensures forall i, j :: 0 <= i < j < |l| ==> l[i] in c && l[j] in c && Lt(c[l[i]].id, c[l[j]].id)
  {}

  lemma EntriesInsert(c: Content, l: seq<nat>, k: nat, d: nat, pos: nat)
    requires pos in c && Place(c, l, c[pos].id, k, d)
    ensures (forall i :: 0 <= i < |Insert(l, k, d, pos)| ==> Insert(l, k, d, pos)[i] in c)
    ensures Entries(c, Insert(l, k, d, pos)) == PutSpec(Entries(c, l), c[pos])
  {
    hide PutSpec;
    var b := Entries(c, l);
    assert b[k + d..] == Entries(c, l[k + d..]) && b[..k] == Entries(c, l[..k]);
    PutSpecAt(b, c[pos], k, d);
    assert Entries(c, Insert(l, k, d, pos)) == b[..k] + [c[pos]] + b[k + d..];
  }

  /** Linking reads no differently, and changes no record outside the list. */
  lemma LinkedRest(m: Mem, m1: Mem, c: Content, head: nat, l: seq<nat>, own: set<nat>, k: nat, d: nat, pos: nat,
                   jump: nat)
    requires Chain(m, c, head, l) && Jumps(m, c, l, own) && IdsRead(m, c)
    requires k + d <= |l| && Marked(m, m1, l, k, d) && pos in m && pos !in own
    ensures
      var m2 := Linked(m1, l, k, d, pos, jump);
      IdsRead(m2, c) && SameOutside(m, m2, own + {pos})
  {
    hide ReadId, Range, IdsRead;
    var m2 := Linked(m1, l, k, d, pos, jump);
    forall p {:trigger m2[p]} | p in m
      ensures m2.Keys == m.Keys && m2[p].data == m[p].data && (p !in l && p != pos ==> m2[p] == m[p])
    {
      LinkedAt(m, m1, l, k, d, pos, jump, p);
    }
    LinkedAt(m, m1, l, k, d, pos, jump, pos);
    SameData(m, m2, c);
  }

  lemma SameData(m: Mem, m2: Mem, c: Content)
    requires IdsRead(m, c) && m2.Keys == m.Keys
    requires forall p {:trigger m2[p]} :: p in m ==> m2[p].data == m[p].data
    ensures IdsRead(m2, c)
  {
    hide ReadId;
  }

  /** Only records of `own` differ, and no bytes do. */
  ghost predicate SameOutside(m: Mem, m2: Mem, own: set<nat>) {
    && m.Keys == m2.Keys
    && (forall p {:trigger m2[p]} :: p in m ==> m2[p].data == m[p].data)
    && (forall p {:trigger m2[p]} :: p in m && p !in own ==> m2[p] == m[p])
  }

  lemma OutsideTrans(m: Mem, m1: Mem, m2: Mem, own: set<nat>, own2: set<nat>)
    requires SameOutside(m, m1, own) && SameOutside(m1, m2, own2) && own <= own2
    ensures SameOutside(m, m2, own2)
  {}

  lemma ButJumpsOutside(m: Mem, m2: Mem, own: set<nat>)
    requires SameButJumps(m, m2, own)
    ensures SameOutside(m, m2, own)
  {}

  lemma SameOutsideSelf(m: Mem, own: set<nat>)
    ensures SameOutside(m, m, own)
  {}

  lemma LinkedOwned(m: Mem, c: Content, l: seq<nat>, own: set<nat>)
    requires Jumps(m, c, l, own)
    ensures forall p :: p in l ==> p in own
  {}

  lemma FirstIsLess(c: Content, m: Mem, head: nat, l: seq<nat>, k: nat)
    requires Chain(m, c, head, l) && 0 < k < |l|
    ensures head == l[0] && l[0] in c && l[k] in c && Lt(c[l[0]].id, c[l[k]].id) && l[k] > 1
    ensures head in l && head in m && head > 1 && m[head].step == l[1] && l[1] in l && l[1] in m && l[1] > 1
  {}

  lemma OwnInMem(m: Mem, c: Content, l: seq<nat>, own: set<nat>)
    requires Jumps(m, c, l, own)
    ensures forall p :: p in own ==> p in m
  {}

  /** A live jump from l[k] leads to a linked record behind it, skipping only smaller ones. */
  lemma JumpAhead(m: Mem, c: Content, head: nat, l: seq<nat>, own: set<nat>, k: nat, j: nat) returns (kj: nat)
    requires Chain(m, c, head, l) && Jumps(m, c, l, own)
    requires k < |l| && l[k] in m && m[l[k]].jump == j && j > 1 && j in l
    ensures k < kj < |l| && l[kj] == j
    ensures forall i :: 0 <= i < |l| ==> l[i] in c
    ensures forall i :: 0 <= i < kj ==> Lt(c[l[i]].id, c[j].id)
  {
    kj := IndexOf(m, c, head, l, j);
    assert l[k] in own;
  }

  /** Only the record at `pos` and jumps and steps of the list differ from before. */
  lemma PutDone(m: Mem, m0: Mem, m2: Mem, own: set<nat>, pos: nat, bs: seq<byte>)
    requires pos !in m && m0 == m[pos := Rec(0, 0, bs)] && SameOutside(m0, m2, own + {pos})
    ensures m2.Keys == m.Keys + {pos} && m2[pos].data == bs
    ensures forall p :: p in m ==> m2[p].data == m[p].data && (p !in own ==> m2[p] == m[p])
  {}

  lemma PlaceLast(c: Content, l: seq<nat>, id: DocId)
    requires forall i :: 0 <= i < |l| ==> l[i] in c && Lt(c[l[i]].id, id)
    ensures Place(c, l, id, |l|, 0)
  {}

  lemma InsertLast(l: seq<nat>, pos: nat)
    ensures Insert(l, |l|, 0, pos) == l + [pos]
  {}

  lemma MarkedData(m: Mem, m2: Mem, c: Content, l: seq<nat>, k: nat, d: nat)
    requires k + d <= |l| && Marked(m, m2, l, k, d) && IdsRead(m, c)
    ensures IdsRead(m2, c)
  {
    hide ReadId, Range;
  }

  /** What check_jump's answer means, in terms of ids. */
  lemma CheckJumpMeans(m: Mem, c: Content, r: nat, j: nat)
    requires IdsRead(m, c) && r in m && j in m && j > 1
    ensures r in c && j in c && (CheckJump(m, r, j) ==> Lt(c[r].id, c[j].id))
  {
    hide ReadId;
  }

  // ---------------------------------------------------------------- the buffer segment

  /** buffer_term: where a term's postings are in the chunk, and where its record list starts. */
  datatype Term = Term(tid: nat, sizeInChunk: nat, posInChunk: nat, sizeInBuffer: nat, posInBuffer: nat)

  function Bits(n: nat): nat {
    if n == 0 then 0 else n % 2 + Bits(n / 2)
  }

  /** An arithmetic shift to the right. */
  function Shr(x: int, n: nat): int
    decreases n
  {
    if n == 0 then x else Shr(x / 2, n - 1)
  }

  /** A difference of two unsigned words, read as signed. */
  function Diff(a: u32, b: u32): int {
    var d := (a - b) % TWO32;
    if d < 0x8000_0000 then d else d - TWO32
  }

  function DocDiff(a: DocId, b: DocId): int {
    if Diff(a.rid, b.rid) != 0 then Diff(a.rid, b.rid) else Diff(a.sid, b.sid)
  }

  /** How far the walk of buffer_put has come since it last followed no jump. */
  datatype Hops = Hops(start: nat, id: DocId, delta0: int, vdelta: int, vhops: nat, nhops: nat)

  const SEGMENT_SIZE := 0x4_0000
  const HEADER_SIZE := 16
  const TERM_SIZE := 16
  const REC_SIZE := 4

  /** A buffer: one segment of records for many terms, and the chunk their older postings are in. */
  class Segment {
    var chunk: seq<byte>
    var free: int                    // buffer_free: bytes between the terms and the lowest record
    var terms: seq<Term>
    var nvoid: nat                   // nterms_void
    var recs: Mem                    // the records, by their position (in units of REC_SIZE)
    ghost var content: Content
    ghost var live: seq<seq<nat>>    // per term, the records linked
    ghost var own: seq<set<nat>>     // per term, the records ever put
    ghost var stored: seq<seq<Posting>>  // per term, what its part of the chunk holds

    constructor (chunk: seq<byte>, terms: seq<Term>, nvoid: nat, ghost stored: seq<seq<Posting>>)
      ensures this.chunk == chunk && this.terms == terms && this.nvoid == nvoid && this.stored == stored
      ensures free == SEGMENT_SIZE - HEADER_SIZE - TERM_SIZE * |terms|
      ensures recs == map[] && content == map[]
      ensures live == seq(|terms|, i => []) && own == seq(|terms|, i => {})
    {
      this.chunk, this.terms, this.nvoid, this.stored := chunk, terms, nvoid, stored;
      free := SEGMENT_SIZE - HEADER_SIZE - TERM_SIZE * |terms|;
      recs, content := map[], map[];
      live, own := seq(|terms|, i => []), seq(|terms|, i => {});
    }

    /** Reading a record's id from its bytes. */
    method IdAt(p: nat) returns (id: DocId)
      requires IdsRead(recs, content) && p in recs
      ensures p in content && id == content[p].id
    {
      id := ReadId(recs[p].data).0;
    }

    /** set_jump_r: hand a jump target down the list, from `from`. */
    method SetJumpR(from: nat, to: nat, ghost head: nat, ghost l: seq<nat>, ghost own: set<nat>)
      requires IdsRead(recs, content) && Chain(recs, content, head, l) && Jumps(recs, content, l, own)
      requires from in l && (to > 1 ==> to in own)
      modifies this`recs
      ensures IdsRead(recs, content) && Chain(recs, content, head, l) && Jumps(recs, content, l, own)
      ensures SameButJumps(old(recs), recs, own)
    {
      hide Chain, Jumps, IdsRead, CheckJump;
      var maxJump := 100;
      var r, j := from, to;
      while j > 1 && maxJump > 0
        invariant IdsRead(recs, content) && Chain(recs, content, head, l) && Jumps(recs, content, l, own)
        invariant r in l && (j > 1 ==> j in own)
        invariant SameButJumps(old(recs), recs, own)
        decreases maxJump
      {
        maxJump := maxJump - 1;
        LinkedFacts(recs, content, head, l, own, r);
        OwnedFacts(recs, content, l, own, j);
        var i := recs[r].jump;
        if r == j || recs[j].jump == 1 || j == i || j == recs[r].step || !CheckJump(recs, r, j) {
          return;
        }
        RedirectJump(recs, content, head, l, own, r, j);
        recs := recs[r := recs[r].(jump := j)];
        j := i;
        if recs[r].step == 0 {
          return;
        }
        r := recs[r].step;
      }
    }

    /** buffer_put at section 0: every linked record of `rid` from `curr` = l[k] on is unlinked. */
    method UnlinkAll(curr: nat, rid: u32, ghost k: nat, ghost head: nat, ghost l: seq<nat>)
      returns (step: nat, ghost d: nat)
      requires IdsRead(recs, content) && Chain(recs, content, head, l)
      requires k < |l| && curr == l[k]
      modifies this`recs
      ensures k + d <= |l| && Marked(old(recs), recs, l, k, d)
      ensures step == Next(l, k + d)
      ensures forall i :: k <= i < k + d ==> l[i] in content && content[l[i]].id.rid == rid
      ensures k + d < |l| ==> l[k + d] in content && content[l[k + d]].id.rid != rid
    {
      hide ReadId, Chain, Marked, IdsRead;
      ghost var m := recs;
      NextAfter(m, content, head, l, k);
      MarkNone(m, l, k);
      var r := curr;
      d := 0;
      step := curr;
      var idCurr := IdAt(curr);
      while idCurr.rid == rid
        invariant k + d < |l| && r == step == l[k + d] && r in recs && r in content && idCurr == content[r].id
        invariant IdsRead(recs, content) && Marked(m, recs, l, k, d)
        invariant forall i :: k <= i < k + d ==> l[i] in content && content[l[i]].id.rid == rid
        decreases |l| - d
      {
        MarkNext(m, recs, content, head, l, k, d);
        recs := recs[r := recs[r].(jump := 1)];
        step := recs[r].step;
        d := d + 1;
        if step == 0 {
          return;
        }
        r := step;
        MarkedKeys(m, recs, l, k, d);
        idCurr := IdAt(r);
      }
    }

    /** The deletions of buffer_put: the records from `curr` = l[k] on that `id` supersedes are unlinked. */
    method Unlink(curr: nat, id: DocId, ghost k: nat, ghost head: nat, ghost l: seq<nat>)
      returns (step: nat, ghost d: nat)
      requires IdsRead(recs, content) && Chain(recs, content, head, l)
      requires k < |l| && curr == l[k]
      requires forall i :: 0 <= i < k ==> l[i] in content && Lt(content[l[i]].id, id)
      requires curr in content && !Lt(content[curr].id, id)
      modifies this`recs
      ensures k + d <= |l| && Marked(old(recs), recs, l, k, d)
      ensures step == Next(l, k + d)
      ensures Place(content, l, id, k, d)
    {
      hide ReadId, Chain, Marked, IdsRead;
      ghost var m := recs;
      NextAfter(m, content, head, l, k);
      MarkNone(m, l, k);
      d := 0;
      step := curr;
      var idCurr := IdAt(curr);
      if idCurr.rid == id.rid && id.sid == 0 {
        step, d := UnlinkAll(curr, id.rid, k, head, l);
      } else {
        if idCurr.rid == id.rid && id.sid == idCurr.sid {
          MarkNext(m, recs, content, head, l, k, 0);
          recs := recs[curr := recs[curr].(jump := 1)];
          step := recs[curr].step;
          d := 1;
        }
      }
    }

    /** `rnew->step = step; rnew->jump = jump; *lastp = pos;` */
    method LinkIn(head: nat, lastq: nat, pos: nat, step: nat, jump: nat,
                  ghost m: Mem, ghost l: seq<nat>, ghost own: set<nat>, ghost k: nat, ghost d: nat)
      returns (head2: nat, ghost l2: seq<nat>)
      requires Chain(m, content, head, l) && Jumps(m, content, l, own) && IdsRead(m, content)
      requires pos in m && pos in content && pos !in own && pos > 1
      requires Place(content, l, content[pos].id, k, d) && Marked(m, recs, l, k, d)
      requires lastq == (if k == 0 then 0 else l[k - 1]) && step == Next(l, k + d)
      requires jump == 0 || (jump > 1 && jump in own && jump in content && Lt(content[pos].id, content[jump].id))
      modifies this`recs
      ensures l2 == Insert(l, k, d, pos) && pos in l2
      ensures Chain(recs, content, head2, l2) && Jumps(recs, content, l2, own + {pos}) && IdsRead(recs, content)
      ensures SameOutside(m, recs, own + {pos})
      ensures (forall i :: 0 <= i < |l| ==> l[i] in content) && (forall i :: 0 <= i < |l2| ==> l2[i] in content)
      ensures Entries(content, l2) == PutSpec(Entries(content, l), content[pos])
    {
      hide Jumps, IdsRead, ReadId, SameOutside, PutSpec, Lt;
      NotLinked(m, content, l, own, pos);
      PlacedLinks(m, content, head, l, k, d);
      hide Chain;
      ChainInsert(m, recs, content, head, l, k, d, pos, jump);
      JumpsInsert(m, recs, content, head, l, own, k, d, pos, jump);
      LinkedRest(m, recs, content, head, l, own, k, d, pos, jump);
      EntriesInsert(content, l, k, d, pos);
      MarkedKeys(m, recs, l, k, d);
      l2 := Insert(l, k, d, pos);
      assert l2[k] == pos;
      ghost var m2 := Linked(recs, l, k, d, pos, jump);
      recs := recs[pos := recs[pos].(step := step, jump := jump)];
      if lastq == 0 {
        head2 := pos;
      } else {
        recs := recs[lastq := recs[lastq].(step := pos)];
        head2 := head;
      }
      assert recs == m2;
    }

    /** The jumps set when a record is appended: the head leads to the tail, and others further. */
    method TailJumps(head: nat, size: nat, pos: nat, last: nat, ghost l: seq<nat>, ghost own: set<nat>)
      requires IdsRead(recs, content) && Chain(recs, content, head, l) && Jumps(recs, content, l, own)
      requires |l| >= 2 && l[|l| - 1] == pos && pos in own && last == l[|l| - 2]
      modifies this`recs
      ensures IdsRead(recs, content) && Chain(recs, content, head, l) && Jumps(recs, content, l, own)
      ensures SameOutside(old(recs), recs, own)
    {
      hide Chain, Jumps, IdsRead, ReadId, SameButJumps, SameOutside, Lt;
      ghost var m := recs;
      FirstIsLess(content, recs, head, l, |l| - 1);
      SetJump(recs, content, head, l, own, head, pos);
      ButJumpsOutside(recs, recs[head := recs[head].(jump := pos)], own);
      recs := recs[head := recs[head].(jump := pos)];
      if size % 2 == 0 {
        FirstIsLess(content, recs, head, l, |l| - 1);
        var n := Bits(size);
        var r := recs[head].step;
        ghost var m1 := recs;
        while n > 0 && recs[r].jump > 1
          invariant r in l && r in recs && recs == m1
          decreases n
        {
          n := n - 1;
          LinkedFacts(recs, content, head, l, own, r);
          var r2 := recs[r].jump;
          OwnedFacts(recs, content, l, own, r2);
          if recs[r2].jump == 1 {
            break;
          }
          r := r2;
        }
        if r != pos {
          LinkedOwned(recs, content, l, own);
          SetJumpR(r, last, head, l, own);
          ButJumpsOutside(m1, recs, own);
          OutsideTrans(m, m1, recs, own, own);
        }
      }
    }

    /** buffer_put at the end of the list. */
    method Append(head: nat, size: nat, lastq: nat, last: nat, pos: nat,
                  ghost m0: Mem, ghost l: seq<nat>, ghost own: set<nat>)
      returns (head2: nat, size2: nat, ghost l2: seq<nat>)
      requires IdsRead(recs, content) && Chain(recs, content, head, l) && Jumps(recs, content, l, own)
      requires pos > 1 && pos in recs && pos in content && pos !in own
      requires lastq == last == if |l| == 0 then 0 else l[|l| - 1]
      requires forall i :: 0 <= i < |l| ==> l[i] in content && Lt(content[l[i]].id, content[pos].id)
      requires (size > 0 ==> |l| > 0) && SameOutside(m0, recs, own)
      modifies this`recs
      ensures IdsRead(recs, content) && Chain(recs, content, head2, l2) && Jumps(recs, content, l2, own + {pos})
      ensures (forall i :: 0 <= i < |l| ==> l[i] in content) && (forall i :: 0 <= i < |l2| ==> l2[i] in content)
      ensures Entries(content, l2) == PutSpec(Entries(content, l), content[pos])
      ensures SameOutside(m0, recs, own + {pos}) && |l2| > 0
    {
      hide Chain, Jumps, IdsRead, ReadId, SameOutside, PutSpec, Marked, Place, Insert;
      ghost var m := recs;
      PlaceLast(content, l, content[pos].id);
      MarkNone(recs, l, |l|);
      InsertLast(l, pos);
      head2, l2 := LinkIn(head, lastq, pos, 0, 0, m, l, own, |l|, 0);
      OutsideTrans(m0, m, recs, own, own + {pos});
      size2 := (size + 1) % 0x1_0000;
      if size > 1 {
        m := recs;
        TailJumps(head2, size2, pos, last, l2, own + {pos});
        OutsideTrans(m0, m, recs, own + {pos}, own + {pos});
      }
    }

    /** buffer_put in front of `curr` = l[k], or instead of the records it supersedes. */
    method Replace(head: nat, lastq: nat, curr: nat, pos: nat, id: DocId,
                   ghost m0: Mem, ghost l: seq<nat>, ghost own: set<nat>, ghost k: nat)
      returns (head2: nat, ghost l2: seq<nat>)
      requires IdsRead(recs, content) && Chain(recs, content, head, l) && Jumps(recs, content, l, own)
      requires pos > 1 && pos in recs && pos in content && pos !in own && content[pos].id == id
      requires k < |l| && curr == l[k] && lastq == if k == 0 then 0 else l[k - 1]
      requires forall i :: 0 <= i < k ==> l[i] in content && Lt(content[l[i]].id, id)
      requires curr in content && !Lt(content[curr].id, id)
      requires SameOutside(m0, recs, own)
      modifies this`recs
      ensures IdsRead(recs, content) && Chain(recs, content, head2, l2) && Jumps(recs, content, l2, own + {pos})
      ensures (forall i :: 0 <= i < |l| ==> l[i] in content) && (forall i :: 0 <= i < |l2| ==> l2[i] in content)
      ensures Entries(content, l2) == PutSpec(Entries(content, l), content[pos])
      ensures SameOutside(m0, recs, own + {pos}) && |l2| > 0
    {
      hide Chain, Jumps, IdsRead, ReadId, SameOutside, PutSpec, Marked, Place, Insert, CheckJump, Lt;
      ghost var m := recs;
      LinkedFacts(recs, content, head, l, own, curr);
      var jump := recs[curr].jump;
      if jump != 0 { OwnedFacts(recs, content, l, own, jump); }
      ghost var d;
      var step;
      step, d := Unlink(curr, id, k, head, l);
      MarkedData(m, recs, content, l, k, d);
      MarkedKeys(m, recs, l, k, d);
      if jump > 1 { CheckJumpMeans(recs, content, pos, jump); }
      if !CheckJump(recs, pos, jump) {
        jump := 0;
      }
      head2, l2 := LinkIn(head, lastq, pos, step, jump, m, l, own, k, d);
      OutsideTrans(m0, m, recs, own, own + {pos});
    }

    /** While walking, buffer_put spreads jumps over stretches that took many hops. */
    method Retune(curr: nat, idCurr: DocId, id: DocId, reset: bool, h: Hops,
                  ghost head: nat, ghost l: seq<nat>, ghost own: set<nat>) returns (h2: Hops)
      requires IdsRead(recs, content) && Chain(recs, content, head, l) && Jumps(recs, content, l, own)
      requires curr in l && (!reset ==> h.start in l)
      modifies this`recs
      ensures IdsRead(recs, content) && Chain(recs, content, head, l) && Jumps(recs, content, l, own)
      ensures SameOutside(old(recs), recs, own) && h2.start in l
    {
      hide Chain, Jumps, IdsRead, SameButJumps, SameOutside;
      SameOutsideSelf(recs, own);
      if reset {
        var delta0 := DocDiff(id, idCurr);
        h2 := Hops(curr, idCurr, delta0, Shr(delta0, 1), 1, 0);
      } else {
        h2 := h;
        var delta := DocDiff(idCurr, h.id);
        if h2.vdelta < delta {
          h2 := h2.(vhops := h2.vhops + 1, vdelta := h2.vdelta + Shr(h2.delta0, h2.vhops + 1), start := curr);
        }
        if h2.nhops > h2.vhops {
          LinkedOwned(recs, content, l, own);
          SetJumpR(h2.start, curr, head, l, own);
          ButJumpsOutside(old(recs), recs, own);
        } else {
          h2 := h2.(nhops := h2.nhops + 1);
        }
      }
    }

    /** `lastp` moves behind `curr` = l[k], or behind the record it jumps to if that one is smaller too. */
    method Advance(curr: nat, id: DocId, ghost head: nat, ghost l: seq<nat>, ghost own: set<nat>, ghost k: nat)
      returns (last: nat, reset: bool, ghost k2: nat)
      requires IdsRead(recs, content) && Chain(recs, content, head, l) && Jumps(recs, content, l, own)
      requires k < |l| && curr == l[k] && curr in content
      requires forall i :: 0 <= i <= k ==> l[i] in content && Lt(content[l[i]].id, id)
      ensures k < k2 <= |l| && last == l[k2 - 1]
      ensures forall i :: 0 <= i < k2 ==> l[i] in content && Lt(content[l[i]].id, id)
    {
      hide Chain, Jumps, IdsRead, ReadId;
      last, reset, k2 := curr, false, k + 1;
      LinkedFacts(recs, content, head, l, own, curr);
      var posj := recs[curr].jump;
      if posj > 1 {
        OwnedFacts(recs, content, l, own, posj);
        if recs[posj].jump != 1 {
          var idj := IdAt(posj);
          if Lt(idj, id) {
            ghost var kj := JumpAhead(recs, content, head, l, own, k, posj);
            last, k2 := posj, kj + 1;
          } else {
            reset := true;
          }
        }
      }
    }

    /**
     * buffer_put: insert the record at `pos`, with bytes `bs`, into a term's list.
     *
     * `head` and `size` are the term's pos_in_buffer and size_in_buffer. Walking the list may
     * redirect jumps, and may follow them; the list ends up as if neither had happened.
     */
    method BufferPut(head: nat, size: nat, pos: nat, bs: seq<byte>, id: DocId,
                     ghost e: Posting, ghost l: seq<nat>, ghost own: set<nat>)
      returns (head2: nat, size2: nat, ghost l2: seq<nat>)
      requires IdsRead(recs, content) && Chain(recs, content, head, l) && Jumps(recs, content, l, own)
      requires pos > 1 && pos !in recs && e.id == id && ReadId(bs).0 == id
      requires size > 0 ==> |l| > 0
      modifies this`recs, this`content
      ensures recs.Keys == old(recs.Keys) + {pos} && recs[pos].data == bs
      ensures content == old(content)[pos := e]
      ensures IdsRead(recs, content) && Chain(recs, content, head2, l2) && Jumps(recs, content, l2, own + {pos})
      ensures (forall i :: 0 <= i < |l| ==> l[i] in content) && (forall i :: 0 <= i < |l2| ==> l2[i] in content)
      ensures Entries(content, l2) == PutSpec(Entries(content, l), e)
      ensures |l2| > 0
      ensures forall p :: p in old(recs) ==>
          recs[p].data == old(recs)[p].data && (p !in own ==> recs[p] == old(recs)[p])
    {
      hide Chain, Jumps, IdsRead, ReadId, SameButJumps, SameOutside, PutSpec, Marked, Place, Insert;
      OwnInMem(recs, content, l, own);
      AddRecord(recs, content, head, l, own, pos, Rec(0, 0, bs), e);
      AddedReads(recs, content, pos, Rec(0, 0, bs), e);
      recs := recs[pos := Rec(0, 0, bs)];
      content := content[pos := e];
      ghost var m0 := recs;
      SameOutsideSelf(m0, own);
      LinkedOwned(recs, content, l, own);

      var lastq, idPost, h, reset := 0, NONE, Hops(0, NONE, 0, 0, 0, 0), true;
      ghost var k := 0;
      while true
        invariant recs.Keys == m0.Keys && content == old(content)[pos := e]
        invariant IdsRead(recs, content) && Chain(recs, content, head, l) && Jumps(recs, content, l, own)
        invariant SameOutside(m0, recs, own)
        invariant k <= |l| && lastq == if k == 0 then 0 else l[k - 1]
        invariant forall i :: 0 <= i < k ==> l[i] in content && Lt(content[l[i]].id, id)
        invariant idPost == NONE || (k > 0 && l[k - 1] in content && !Lt(content[l[k - 1]].id, idPost))
        invariant !reset ==> h.start in l
        decreases |l| - k
      {
        NextAfter(recs, content, head, l, k);
        var curr := if lastq == 0 then head else recs[lastq].step;
        if curr == 0 {
          head2, size2, l2 := Append(head, size, lastq, lastq, pos, m0, l, own);
          PutDone(old(recs), m0, recs, own, pos, bs);
          return;
        }
        var idCurr := IdAt(curr);
        if Lt(idCurr, idPost) {
          assert false;  // "loop found": the list is strictly increasing
        }
        idPost := idCurr;
        if !Lt(idCurr, id) {
          head2, l2 := Replace(head, lastq, curr, pos, id, m0, l, own, k);
          size2 := size;
          PutDone(old(recs), m0, recs, own, pos, bs);
          return;
        }
        ghost var m1 := recs;
        h := Retune(curr, idCurr, id, reset, h, head, l, own);
        OutsideTrans(m0, m1, recs, own, own);
        lastq, reset, k := Advance(curr, id, head, l, own, k);
      }
    }
  }
}
