/**
 * Exact phrase search (`lib/index.c`, the main loop of sen_index_select for two or more tokens):
 * the streams of the tokens are leapfrogged, first to a section that all of them have, and then
 * to the positions in it where the phrase starts.
 */
module PhraseSearch {
  import opened ByteCodec
  import opened PostingCodec
  import opened CursorHeap
  import opened Tokens

  /** The hits of every token, and their offsets in the phrase. */
  datatype Query = Query(bins: seq<seq<Cur>>, offsets: seq<nat>, limit: nat)

  ghost predicate QueryOk(q: Query) {
    && |q.bins| == |q.offsets| >= 2
    && forall k, h :: 0 <= k < |q.bins| && Lists(q.bins[k], h) ==> h.pos < q.limit && h.id.sid + 1 < TWO32
  }

  /** The phrase starts at position `s` of section `id`. */
  ghost predicate Starts(q: Query, id: DocId, s: nat)
    requires |q.bins| == |q.offsets|
  {
    forall k :: 0 <= k < |q.bins| ==> Lists(q.bins[k], Hit(id, s + q.offsets[k]))
  }

  /** ... before position `n`. */
  ghost function StartSet(q: Query, id: DocId, n: nat): set<nat>
    requires |q.bins| == |q.offsets|
  {
    set s: nat | s < n && Starts(q, id, s)
  }

  datatype Row = Row(id: DocId, count: nat)

  ghost predicate RowOk(q: Query, r: Row)
    requires |q.bins| == |q.offsets|
  {
    r.count > 0 && r.count == |StartSet(q, r.id, q.limit)|
  }

  /** The rows for all sections before `f`. */
  ghost predicate RowsOk(q: Query, rows: seq<Row>, f: DocId)
    requires |q.bins| == |q.offsets|
  {
    && (forall i :: 0 <= i < |rows| ==> RowOk(q, rows[i]) && Lt(rows[i].id, f))
    && (forall i, j :: 0 <= i < j < |rows| ==> Lt(rows[i].id, rows[j].id))
    && (forall id, s :: Starts(q, id, s) && Lt(id, f) ==> HasRow(rows, id))
  }

  ghost predicate HasRow(rows: seq<Row>, id: DocId) {
    exists i :: 0 <= i < |rows| && rows[i].id == id
  }

  /** Exactly the sections in which the phrase starts somewhere, with the number of times. */
  ghost predicate AllRows(q: Query, rows: seq<Row>)
    requires |q.bins| == |q.offsets|
  {
    && (forall i :: 0 <= i < |rows| ==> RowOk(q, rows[i]))
    && (forall i, j :: 0 <= i < j < |rows| ==> Lt(rows[i].id, rows[j].id))
    && (forall id, s :: Starts(q, id, s) ==> HasRow(rows, id))
  }

  // ---------------------------------------------------------------- what the tokens keep

  /** Token `t` has lost no hit in section `f` or behind. */
  ghost predicate Keeps(t: TokenInfo, b: seq<Cur>, f: DocId)
    reads t
  {
    && t.Valid()
    && (forall h :: t.Left(h) ==> Lists(b, h))
    && (forall h :: Lists(b, h) && !Lt(h.id, f) ==> t.Left(h))
  }

  /** Before every section. */
  const START := DocId(0, 0)

  ghost predicate DistinctTokens(tis: seq<TokenInfo>) {
    forall i, j :: 0 <= i < j < |tis| ==> tis[i] != tis[j]
  }

  ghost predicate TokensOk(tis: seq<TokenInfo>, q: Query) {
    && DistinctTokens(tis) && |tis| == |q.bins| == |q.offsets| >= 2 && QueryOk(q)
    && forall k :: 0 <= k < |tis| ==> tis[k].offset == q.offsets[k]
  }

  ghost predicate AllKeep(tis: seq<TokenInfo>, q: Query, f: DocId)
    requires |tis| == |q.bins|
    reads tis
  {
    forall k :: 0 <= k < |tis| ==> Keeps(tis[k], q.bins[k], f)
  }

  /** Some token has no hit from `f` on, before section `n`. */
  ghost predicate Gap(q: Query, f: DocId, n: DocId) {
    exists k :: 0 <= k < |q.bins| && forall h :: Lists(q.bins[k], h) && Lt(h.id, n) ==> Lt(h.id, f)
  }

  ghost predicate NoMore(q: Query, f: DocId) {
    exists k :: 0 <= k < |q.bins| && forall h :: Lists(q.bins[k], h) ==> Lt(h.id, f)
  }

  lemma GapRows(q: Query, rows: seq<Row>, f: DocId, n: DocId)
    requires QueryOk(q) && RowsOk(q, rows, f) && Gap(q, f, n) && !Lt(n, f)
    ensures RowsOk(q, rows, n)
  {
    var k :| 0 <= k < |q.bins| && forall h :: Lists(q.bins[k], h) && Lt(h.id, n) ==> Lt(h.id, f);
    forall id, s | Starts(q, id, s) && Lt(id, n) ensures HasRow(rows, id) {
      assert Lists(q.bins[k], Hit(id, s + q.offsets[k]));
    }
  }

  lemma NoMoreRows(q: Query, rows: seq<Row>, f: DocId)
    requires QueryOk(q) && RowsOk(q, rows, f) && NoMore(q, f)
    ensures AllRows(q, rows)
  {
    var k :| 0 <= k < |q.bins| && forall h :: Lists(q.bins[k], h) ==> Lt(h.id, f);
    forall id, s | Starts(q, id, s) ensures HasRow(rows, id) {
      assert Lists(q.bins[k], Hit(id, s + q.offsets[k]));
    }
  }

  /** The section after `d`. */
  function After(d: DocId): DocId
    requires d.sid + 1 < TWO32
  {
    DocId(d.rid, d.sid + 1)
  }

  /** The row of section `d`, if the phrase starts there. */
  lemma NextRow(q: Query, rows: seq<Row>, d: DocId, count: nat)
    requires QueryOk(q) && RowsOk(q, rows, d) && d.sid + 1 < TWO32 && count == |StartSet(q, d, q.limit)|
    ensures RowsOk(q, if count > 0 then rows + [Row(d, count)] else rows, After(d))
  {
    var rows2 := if count > 0 then rows + [Row(d, count)] else rows;
    forall id, s | Starts(q, id, s) && Lt(id, After(d)) ensures HasRow(rows2, id) {
      if id == d {
        assert Lists(q.bins[0], Hit(d, s + q.offsets[0]));
        assert s in StartSet(q, d, q.limit);
        assert rows2[|rows|].id == d;
      } else {
        var i :| 0 <= i < |rows| && rows[i].id == id;
        assert rows2[i].id == id;
      }
    }
  }

  /** One token is moved on; the others are as they were. */
  method SkipTo(tis: seq<TokenInfo>, ghost q: Query, k: nat, id: DocId) returns (ok: bool)
    requires TokensOk(tis, q) && k < |tis| && AllKeep(tis, q, id)
    modifies tis[k]
    ensures AllKeep(tis, q, id)
    ensures ok ==> tis[k].AtFirst() && !Lt(tis[k].p, id) && Gap(q, id, tis[k].p)
    ensures !ok ==> NoMore(q, id)
  {
    hide HeapOk, Lists, QueryOk;
    ghost var t := tis[k];
    assert Keeps(t, q.bins[k], id);
    ok := tis[k].Skip(id);
    assert Keeps(t, q.bins[k], id);
    forall j | 0 <= j < |tis| && j != k ensures Keeps(tis[j], q.bins[j], id) {
      assert tis[j] != tis[k];
    }
    if ok {
      assert forall h :: Lists(q.bins[k], h) && Lt(h.id, t.p) ==> Lt(h.id, id);
    }
  }

  // ---------------------------------------------------------------- the same section

  datatype Meeting = Met | Gone | Behind(next: DocId)

  /** The other tokens, moved on to the section of the first one. */
  method Meet(tis: seq<TokenInfo>, ghost q: Query, d: DocId) returns (m: Meeting)
    requires TokensOk(tis, q) && AllKeep(tis, q, d) && tis[0].AtFirst() && tis[0].p == d
    modifies tis
    ensures AllKeep(tis, q, d)
    ensures m == Met ==> forall k :: 0 <= k < |tis| ==> tis[k].AtFirst() && tis[k].p == d
    ensures m == Gone ==> NoMore(q, d)
    ensures m.Behind? ==> Lt(d, m.next) && Gap(q, d, m.next)
  {
    hide Keeps, NoMore, Gap, TokenInfo.AtFirst, QueryOk;
    var k := 1;
    while k < |tis|
      invariant 1 <= k <= |tis| && AllKeep(tis, q, d)
      invariant forall j :: 0 <= j < k ==> tis[j].AtFirst() && tis[j].p == d
    {
      assert forall j :: 0 <= j < k ==> tis[j] != tis[k];
      var ok := SkipTo(tis, q, k, d);
      if !ok {
        return Gone;
      }
      if tis[k].p != d {
        return Behind(tis[k].p);
      }
      k := k + 1;
    }
    m := Met;
  }

  // ---------------------------------------------------------------- positions within a section

  /** In section `d`, token `t` has lost no hit from which the phrase would start at `s` or behind. */
  ghost predicate KeepsAt(t: TokenInfo, b: seq<Cur>, d: DocId, s: nat)
    reads t
  {
    && t.Valid()
    && (forall h :: t.Left(h) ==> Lists(b, h) && !Lt(h.id, d))
    && (forall h :: Lists(b, h) && (Lt(d, h.id) || (h.id == d && h.pos >= s + t.offset)) ==> t.Left(h))
  }

  ghost predicate AllKeepAt(tis: seq<TokenInfo>, q: Query, d: DocId, s: nat)
    requires |tis| == |q.bins|
    reads tis
  {
    forall k :: 0 <= k < |tis| ==> KeepsAt(tis[k], q.bins[k], d, s)
  }

  lemma EnterSection(tis: seq<TokenInfo>, q: Query, d: DocId)
    requires TokensOk(tis, q) && AllKeep(tis, q, d)
    requires forall k :: 0 <= k < |tis| ==> tis[k].AtFirst() && tis[k].p == d
    ensures AllKeepAt(tis, q, d, 0)
  {
    hide HeapOk, Lists;
    forall k | 0 <= k < |tis| ensures KeepsAt(tis[k], q.bins[k], d, 0) {
      assert Keeps(tis[k], q.bins[k], d) && tis[k].AtFirst();
    }
  }

  lemma LeaveSection(tis: seq<TokenInfo>, q: Query, d: DocId, s: nat)
    requires TokensOk(tis, q) && AllKeepAt(tis, q, d, s) && d.sid + 1 < TWO32
    ensures AllKeep(tis, q, After(d))
  {
    hide HeapOk, Lists;
    forall k | 0 <= k < |tis| ensures Keeps(tis[k], q.bins[k], After(d)) {
      assert KeepsAt(tis[k], q.bins[k], d, s);
    }
  }

  lemma KeepsLess(tis: seq<TokenInfo>, q: Query, d: DocId, s: nat, s2: nat)
    requires |tis| == |q.bins| && AllKeepAt(tis, q, d, s) && s <= s2
    ensures AllKeepAt(tis, q, d, s2)
  {
    hide HeapOk, Lists;
    forall k | 0 <= k < |tis| ensures KeepsAt(tis[k], q.bins[k], d, s2) {
      assert KeepsAt(tis[k], q.bins[k], d, s);
    }
  }

  /** Token `k`, moved on to where the phrase may start at `s` or behind. */
  method SkipPosTo(tis: seq<TokenInfo>, ghost q: Query, k: nat, d: DocId, s: nat) returns (ok: bool)
    requires TokensOk(tis, q) && k < |tis| && AllKeepAt(tis, q, d, s) && d.sid + 1 < TWO32
    modifies tis[k]
    ensures AllKeepAt(tis, q, d, s)
    ensures ok && tis[k].p == d ==> s <= tis[k].pos < q.limit && Lists(q.bins[k], Hit(d, tis[k].pos + tis[k].offset))
    ensures ok && tis[k].p == d ==> forall r :: s <= r < tis[k].pos ==> !Starts(q, d, r)
    ensures !(ok && tis[k].p == d) ==> forall r :: s <= r ==> !Starts(q, d, r)
    ensures ok && tis[k].p != d ==> Lt(d, tis[k].p) && Gap(q, After(d), tis[k].p)
  {
    hide HeapOk, Lists, QueryOk, Starts, Gap;
    ghost var t, b := tis[k], q.bins[k];
    assert KeepsAt(t, b, d, s);
    ok := tis[k].SkipPos(d, s);
    assert KeepsAt(t, b, d, s);
    forall j | 0 <= j < |tis| && j != k ensures KeepsAt(tis[j], q.bins[j], d, s) {
      assert tis[j] != tis[k];
    }
    if ok {
      HitBelow(q, k, Hit(t.p, t.pos + t.offset));
      if t.p != d {
        SectionGap(t, q, k, d, s);
      }
    }
    forall r: nat | s <= r && (!(ok && t.p == d) || r < t.pos) ensures !Starts(q, d, r) {
      StartHit(q, d, r, k);
    }
  }

  lemma HitBelow(q: Query, k: nat, h: Hit)
    requires QueryOk(q) && k < |q.bins|
    ensures Lists(q.bins[k], h) ==> h.pos < q.limit
  {}

  lemma StartHit(q: Query, d: DocId, r: nat, k: nat)
    requires |q.bins| == |q.offsets| && k < |q.bins|
    ensures Starts(q, d, r) ==> Lists(q.bins[k], Hit(d, r + q.offsets[k]))
  {}

  lemma SectionGap(t: TokenInfo, q: Query, k: nat, d: DocId, s: nat)
    requires k < |q.bins| && KeepsAt(t, q.bins[k], d, s) && t.AtFirst() && t.p != d && d.sid + 1 < TWO32
    ensures Lt(d, t.p) && Gap(q, After(d), t.p)
  {
    hide HeapOk, Lists;
    assert forall h :: Lists(q.bins[k], h) && Lt(d, h.id) ==> t.Left(h);
    assert forall h :: Lists(q.bins[k], h) && Lt(h.id, t.p) ==> Lt(h.id, After(d));
  }

  // ---------------------------------------------------------------- the phrase

  /** The token that is `j` turns back from the one whose turn it is. */
  function Back(k: nat, j: nat, n: nat): nat
    requires k < n && j <= n
  {
    if k >= j then k - j else k + n - j
  }

  /** The last `count` tokens that had their turn have a hit where the phrase would start at `s`. */
  ghost predicate Agreed(q: Query, d: DocId, s: nat, k: nat, count: nat) {
    && |q.bins| == |q.offsets| && k < |q.bins| && count < |q.bins|
    && forall j :: 1 <= j <= count ==> Lists(q.bins[Back(k, j, |q.bins|)], Hit(d, s + q.offsets[Back(k, j, |q.bins|)]))
  }

  lemma AgreedNext(q: Query, d: DocId, s: nat, k: nat, count: nat)
    requires Agreed(q, d, s, k, count) && Lists(q.bins[k], Hit(d, s + q.offsets[k]))
    ensures count + 1 < |q.bins| ==> Agreed(q, d, s, if k + 1 == |q.bins| then 0 else k + 1, count + 1)
    ensures count + 1 == |q.bins| ==> Starts(q, d, s)
  {
    hide Lists;
    var n := |q.bins|;
    var k2 := if k + 1 == n then 0 else k + 1;
    forall j | 1 <= j <= count + 1 ensures Lists(q.bins[Back(k2, j, n)], Hit(d, s + q.offsets[Back(k2, j, n)])) {
      if j == 1 {
        assert Back(k2, 1, n) == k;
      } else {
        assert Back(k2, j, n) == Back(k, j - 1, n);
      }
    }
    if count + 1 == n {
      forall i | 0 <= i < n ensures Lists(q.bins[i], Hit(d, s + q.offsets[i])) {
        var j := if i <= k then k - i else k + n - i;
        assert j == 0 || Back(k, j, n) == i;
      }
    }
  }

  lemma AgreedOne(q: Query, d: DocId, s: nat, k: nat)
    requires |q.bins| == |q.offsets| >= 2 && k < |q.bins| && Lists(q.bins[k], Hit(d, s + q.offsets[k]))
    ensures Agreed(q, d, s, if k + 1 == |q.bins| then 0 else k + 1, 1)
  {}

  lemma AgreedNone(q: Query, d: DocId, s: nat, k: nat)
    requires |q.bins| == |q.offsets| >= 2 && k < |q.bins|
    ensures Agreed(q, d, s, k, 0)
  {}

  /** No start between, or one more. */
  lemma CountStarts(q: Query, d: DocId, s: nat, s2: nat)
    requires |q.bins| == |q.offsets| && s <= s2 && forall r :: s <= r < s2 ==> !Starts(q, d, r)
    ensures StartSet(q, d, s2) == StartSet(q, d, s)
  {}

  lemma CountOne(q: Query, d: DocId, s: nat)
    requires |q.bins| == |q.offsets| && Starts(q, d, s)
    ensures |StartSet(q, d, s + 1)| == |StartSet(q, d, s)| + 1
  {
    assert StartSet(q, d, s + 1) == StartSet(q, d, s) + {s};
  }

  lemma CountNone(q: Query, d: DocId)
    requires |q.bins| == |q.offsets|
    ensures |StartSet(q, d, 0)| == 0
  {}

  /** Round and round the tokens, until one has no more hits in the section. */
  method CountPhrase(tis: seq<TokenInfo>, ghost q: Query, d: DocId) returns (noccur: nat, next: DocId)
    requires TokensOk(tis, q) && AllKeepAt(tis, q, d, 0) && d.sid + 1 < TWO32
    modifies tis
    ensures noccur == |StartSet(q, d, q.limit)|
    ensures AllKeep(tis, q, After(d))
    ensures next == After(d) || (Lt(d, next) && Gap(q, After(d), next))
  {
    hide KeepsAt, Keeps, Starts, StartSet, Agreed, Gap, QueryOk, Lists;
    var n := |tis|;
    var count, pos: nat, k: nat := 0, 0, 0;
    noccur, next := 0, After(d);
    AgreedNone(q, d, 0, 0);
    CountNone(q, d);
    while true
      invariant k < n && count < n && pos <= q.limit && AllKeepAt(tis, q, d, pos)
      invariant Agreed(q, d, pos, k, count) && noccur == |StartSet(q, d, pos)|
      decreases q.limit - pos, n - count
    {
      var ok := SkipPosTo(tis, q, k, d, pos);
      if !ok || tis[k].p != d {
        if ok {
          next := tis[k].p;
        }
        CountStarts(q, d, pos, q.limit);
        break;
      }
      if tis[k].pos == pos {
        AgreedNext(q, d, pos, k, count);
        count := count + 1;
      } else {
        CountStarts(q, d, pos, tis[k].pos);
        KeepsLess(tis, q, d, pos, tis[k].pos);
        AgreedOne(q, d, tis[k].pos, k);
        count, pos := 1, tis[k].pos;
      }
      k := if k + 1 == n then 0 else k + 1;
      if count == n {
        CountOne(q, d, pos);
        KeepsLess(tis, q, d, pos, pos + 1);
        count, pos := 0, pos + 1;
        noccur := noccur + 1;
        AgreedNone(q, d, pos, k);
      }
    }
    LeaveSection(tis, q, d, pos);
  }

  // ---------------------------------------------------------------- the search

  /** sen_index_select, for tokens that all have a first hit: the sections, and how often the phrase starts in each. */
  method Select(tis: seq<TokenInfo>, ghost q: Query) returns (rows: seq<Row>)
    requires TokensOk(tis, q)
    requires forall k :: 0 <= k < |tis| ==> Keeps(tis[k], q.bins[k], START) && tis[k].AtFirst()
    modifies tis
    ensures AllRows(q, rows)
  {
    hide Keeps, KeepsAt, Gap, NoMore, RowsOk, AllRows, StartSet, QueryOk, TokenInfo.AtFirst;
    rows := [];
    StartRows(tis, q);
    while true
      invariant TokensOk(tis, q) && AllKeep(tis, q, tis[0].p) && tis[0].AtFirst() && RowsOk(q, rows, tis[0].p)
      decreases TWO32 - tis[0].p.rid, TWO32 - tis[0].p.sid
    {
      var d := tis[0].p;
      FirstBound(tis, q);
      var m := Meet(tis, q, d);
      var next := After(d);
      match m {
        case Gone =>
          NoMoreRows(q, rows, d);
          return;
        case Behind(n) =>
          GapRows(q, rows, d, n);
          next := n;
          KeepLess(tis, q, d, n);
        case Met =>
          EnterSection(tis, q, d);
          var noccur;
          noccur, next := CountPhrase(tis, q, d);
          NextRow(q, rows, d, noccur);
          if noccur > 0 {
            rows := rows + [Row(d, noccur)];
          }
          if next != After(d) {
            GapRows(q, rows, After(d), next);
            KeepLess(tis, q, After(d), next);
          }
      }
      var ok := SkipTo(tis, q, 0, next);
      if !ok {
        NoMoreRows(q, rows, next);
        return;
      }
      GapRows(q, rows, next, tis[0].p);
      KeepLess(tis, q, next, tis[0].p);
    }
  }

  lemma StartRows(tis: seq<TokenInfo>, q: Query)
    requires TokensOk(tis, q)
    requires forall k :: 0 <= k < |tis| ==> Keeps(tis[k], q.bins[k], START) && tis[k].AtFirst()
    ensures AllKeep(tis, q, tis[0].p) && RowsOk(q, [], tis[0].p)
  {
    hide HeapOk, Lists;
    forall id, s | Starts(q, id, s) ensures !Lt(id, tis[0].p) {
      assert Lists(q.bins[0], Hit(id, s + q.offsets[0]));
      assert tis[0].Left(Hit(id, s + q.offsets[0]));
    }
  }

  lemma FirstBound(tis: seq<TokenInfo>, q: Query)
    requires TokensOk(tis, q) && AllKeep(tis, q, tis[0].p) && tis[0].AtFirst()
    ensures tis[0].p.sid + 1 < TWO32
  {
    hide HeapOk, Lists;
    assert Keeps(tis[0], q.bins[0], tis[0].p);
  }

  lemma KeepLess(tis: seq<TokenInfo>, q: Query, f: DocId, f2: DocId)
    requires |tis| == |q.bins| && AllKeep(tis, q, f) && !Lt(f2, f)
    ensures AllKeep(tis, q, f2)
  {
    hide HeapOk, Lists;
    forall k | 0 <= k < |tis| ensures Keeps(tis[k], q.bins[k], f2) {
      assert Keeps(tis[k], q.bins[k], f);
    }
  }

  // ---------------------------------------------------------------- every query has a limit

  function Max(a: nat, b: nat): nat {
    if a < b then b else a
  }

  ghost function PositionLimit(ps: seq<nat>): (m: nat)
    ensures forall p :: p in ps ==> p < m
  {
    if |ps| == 0 then 0
    else
      assert forall p :: p in ps ==> p == ps[0] || p in ps[1..];
      Max(ps[0] + 1, PositionLimit(ps[1..]))
  }

  ghost function PostLimit(ps: seq<Post>): (m: nat)
    ensures forall i, p :: 0 <= i < |ps| && p in ps[i].positions ==> p < m
  {
    if |ps| == 0 then 0
    else
      assert forall i :: 0 < i < |ps| ==> ps[i] == ps[1..][i - 1];
      Max(PositionLimit(ps[0].positions), PostLimit(ps[1..]))
  }

  /** The positions of a token are below this. */
  ghost function HitLimit(b: seq<Cur>): (m: nat)
    ensures forall i, h :: 0 <= i < |b| && Has(b[i], h) ==> h.pos < m
  {
    if |b| == 0 then 0
    else
      assert forall i :: 0 < i < |b| ==> b[i] == b[1..][i - 1];
      Max(Max(PositionLimit(b[0].positions), PostLimit(b[0].more)), HitLimit(b[1..]))
  }

  ghost function QueryLimit(bins: seq<seq<Cur>>): (m: nat)
    ensures forall k, h :: 0 <= k < |bins| && Lists(bins[k], h) ==> h.pos < m
  {
    if |bins| == 0 then 0
    else
      assert forall k :: 0 < k < |bins| ==> bins[k] == bins[1..][k - 1];
      Max(HitLimit(bins[0]), QueryLimit(bins[1..]))
  }

  /** The search for these tokens. */
  ghost function QueryOf(curs: seq<seq<Cur>>, offsets: seq<nat>): Query {
    Query(curs, offsets, QueryLimit(curs))
  }

  // ---------------------------------------------------------------- from the cursors to the rows

  /**
   * sen_index_select from the cursors of the tokens, in whatever order the tokens are put: every
   * token is opened, and the sections are listed. If one token has no cursor nothing is found.
   */
  method SelectPhrase(curs: seq<seq<Cur>>, offsets: seq<nat>) returns (rows: seq<Row>)
    requires |curs| == |offsets| >= 2 && forall k :: 0 <= k < |curs| ==> CursOk(curs[k])
    requires forall k, h :: 0 <= k < |curs| && Lists(curs[k], h) ==> h.id.sid + 1 < TWO32
    ensures QueryOk(QueryOf(curs, offsets)) && AllRows(QueryOf(curs, offsets), rows)
  {
    hide Keeps, RowsOk, Lists, CurOk, HeapOk, QueryLimit, TokenInfo.AtFirst;
    ghost var q := QueryOf(curs, offsets);
    var tis: seq<TokenInfo> := [];
    while |tis| < |curs|
      invariant |tis| <= |curs| && DistinctTokens(tis) && forall k :: 0 <= k < |tis| ==> fresh(tis[k])
      invariant forall k :: 0 <= k < |tis| ==> tis[k].offset == offsets[k]
      invariant forall k :: 0 <= k < |tis| ==> Keeps(tis[k], curs[k], START) && tis[k].AtFirst()
    {
      var ok, t := OpenToken(curs[|tis|], offsets[|tis|]);
      if !ok {
        rows := [];
        NoToken(q, |tis|);
        return;
      }
      OpenKeeps(t, curs[|tis|]);
      tis := tis + [t];
    }
    rows := Select(tis, q);
  }

  lemma OpenKeeps(t: TokenInfo, b: seq<Cur>)
    requires t.Valid() && forall h :: t.Left(h) <==> Lists(b, h)
    ensures Keeps(t, b, START)
  {}

  lemma NoToken(q: Query, k: nat)
    requires QueryOk(q) && k < |q.bins| && q.bins[k] == []
    ensures AllRows(q, [])
  {
    hide Lists;
    forall id, s | Starts(q, id, s) ensures HasRow([], id) {
      assert Lists(q.bins[k], Hit(id, s + q.offsets[k]));
      NothingListed(q.bins[k]);
    }
  }
}
