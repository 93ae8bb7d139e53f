/**
 * The array of an index (`lib/inv.c`, array_at): per term one word, which is 0, a packed posting
 * (odd), or the address of the term's slot in a buffer (even).
 */
module WordArrays {
  import opened ByteCodec
  import opened BufferList
  import opened FlushBuffers

  const MAX_SEGMENT := 0x4000

  type Slots = map<nat, seq<Term>>

  /** `pos` of buffer_new: segment `s`, slot `i`. */
  function SlotWord(s: nat, i: nat): nat {
    s * SEGMENT_SIZE + HEADER_SIZE + TERM_SIZE * i
  }

  function SegOf(w: nat): nat {
    w / SEGMENT_SIZE
  }

  function SlotOf(w: nat): nat
    requires w % SEGMENT_SIZE >= HEADER_SIZE
  {
    (w % SEGMENT_SIZE - HEADER_SIZE) / TERM_SIZE
  }

  lemma SlotWordBack(s: nat, i: nat)
    requires HEADER_SIZE + TERM_SIZE * i < SEGMENT_SIZE
    ensures
      var w := SlotWord(s, i);
      w % 2 == 0 && w != 0 && w % SEGMENT_SIZE >= HEADER_SIZE && SegOf(w) == s && SlotOf(w) == i
  {}

  /** A word that is not packed is the address of a slot of its own term. */
  ghost predicate Addresses(w: nat, slots: Slots, t: nat) {
    && w % SEGMENT_SIZE >= HEADER_SIZE
    && SegOf(w) in slots && SlotOf(w) < |slots[SegOf(w)]|
    && slots[SegOf(w)][SlotOf(w)].tid == t
    && w == SlotWord(SegOf(w), SlotOf(w))
  }

  predicate IsSlot(w: nat) {
    w != 0 && w % 2 == 0
  }

  ghost predicate WordsOk(a: Words, pk: Pockets, slots: Slots) {
    && (forall s :: s in slots ==> HEADER_SIZE + TERM_SIZE * |slots[s]| <= SEGMENT_SIZE)
    && (forall s, i :: s in slots && 0 <= i < |slots[s]| && slots[s][i].tid != 0 ==>
          WordAt(a, slots[s][i].tid) == SlotWord(s, i))
    && 0 !in a
    && (forall t :: WordOk(a, pk, t) && (IsSlot(WordAt(a, t)) ==> Addresses(WordAt(a, t), slots, t)))
  }

  lemma SlotOfTerm(a: Words, pk: Pockets, slots: Slots, s: nat, i: nat)
    requires WordsOk(a, pk, slots) && s in slots && i < |slots[s]| && slots[s][i].tid != 0
    ensures
      var w := WordAt(a, slots[s][i].tid);
      w == SlotWord(s, i) && IsSlot(w) && w % SEGMENT_SIZE >= HEADER_SIZE && SegOf(w) == s && SlotOf(w) == i
  {}

  lemma SlotsDistinct(a: Words, pk: Pockets, slots: Slots, s: nat)
    requires WordsOk(a, pk, slots) && s in slots
    ensures DistinctTerms(slots[s])
  {}

  /** What the words look like when the buffer of segment `s` has been flushed. */
  lemma WordsFlushed(a: Words, pk: Pockets, slots: Slots, s: nat, ts: seq<Term>, a2: Words, pk2: Pockets)
    requires WordsOk(a, pk, slots) && s in slots && |ts| == |slots[s]|
    requires Untouched(slots[s], |slots[s]|, a, pk, a2, pk2)
    requires forall i :: 0 <= i < |ts| ==>
               var key := slots[s][i].tid;
               if key == 0 then ts[i].tid == 0
               else if ts[i].tid == 0 then WordOk(a2, pk2, key) && !IsSlot(WordAt(a2, key))
               else ts[i].tid == key && WordAt(a2, key) == WordAt(a, key)
    ensures WordsOk(a2, pk2, slots[s := ts])
  {
    var slots2: Slots := slots[s := ts];
    forall s2: nat, j: nat | s2 in slots2 && 0 <= j < |slots2[s2]| && slots2[s2][j].tid != 0
      ensures WordAt(a2, slots2[s2][j].tid) == SlotWord(s2, j)
    {
      if s2 != s {
        assert slots2[s2] == slots[s2];
        UntouchedElsewhere(a, pk, slots, s, s2, j, a2, pk2);
      }
      SlotOfTerm(a, pk, slots, s2, j);
    }
    forall t
      ensures WordOk(a2, pk2, t) && (IsSlot(WordAt(a2, t)) ==> Addresses(WordAt(a2, t), slots2, t))
    {
      if i: nat :| i < |ts| && slots[s][i].tid == t && t != 0 {
        SlotOfTerm(a, pk, slots, s, i);
      } else {
        assert WordAt(a2, t) == WordAt(a, t);
      }
    }
  }

  lemma UntouchedElsewhere(a: Words, pk: Pockets, slots: Slots, s: nat, s2: nat, j: nat, a2: Words, pk2: Pockets)
    requires WordsOk(a, pk, slots) && s in slots && s2 in slots && s != s2 && j < |slots[s2]| && slots[s2][j].tid != 0
    requires Untouched(slots[s], |slots[s]|, a, pk, a2, pk2)
    ensures WordAt(a2, slots[s2][j].tid) == WordAt(a, slots[s2][j].tid)
  {}

  /** Words only depend on which term is in which slot. */
  lemma WordsSameTids(a: Words, pk: Pockets, slots: Slots, slots2: Slots)
    requires WordsOk(a, pk, slots) && slots2.Keys == slots.Keys
    requires forall s :: s in slots ==> |slots2[s]| == |slots[s]|
    requires forall s, i :: s in slots && 0 <= i < |slots[s]| ==> slots2[s][i].tid == slots[s][i].tid
    ensures WordsOk(a, pk, slots2)
  {}

  /** A term without a slot gets the (unused) slot `i` of segment `s`. */
  lemma WordsPlaced(a: Words, pk: Pockets, slots: Slots, slots2: Slots, s: nat, i: nat, t: nat)
    requires WordsOk(a, pk, slots) && !IsSlot(WordAt(a, t)) && t != 0
    requires s in slots2 && slots2.Keys == slots.Keys + {s}
    requires HEADER_SIZE + TERM_SIZE * |slots2[s]| <= SEGMENT_SIZE
    requires i < |slots2[s]| && slots2[s][i].tid == t
    requires forall k :: k in slots && k != s ==> slots2[k] == slots[k]
    requires forall j :: 0 <= j < |slots2[s]| && j != i ==>
               s in slots && j < |slots[s]| && slots2[s][j].tid == slots[s][j].tid
    requires s in slots ==> |slots[s]| <= |slots2[s]| && (i < |slots[s]| ==> slots[s][i].tid == 0)
    ensures WordsOk(a[t := SlotWord(s, i)], pk[t := 0], slots2)
  {
    var a2, pk2 := a[t := SlotWord(s, i)], pk[t := 0];
    SlotWordBack(s, i);
    forall k: nat, j: nat | k in slots2 && j < |slots2[k]| && slots2[k][j].tid != 0
      ensures WordAt(a2, slots2[k][j].tid) == SlotWord(k, j)
    {
      if !(k == s && j == i) {
        assert k in slots && j < |slots[k]| && slots2[k][j].tid == slots[k][j].tid;
        SlotOfTerm(a, pk, slots, k, j);
      }
    }
    forall x
      ensures WordOk(a2, pk2, x) && (IsSlot(WordAt(a2, x)) ==> Addresses(WordAt(a2, x), slots2, x))
    {
      if x != t {
        assert WordOk(a, pk, x);
        assert WordAt(a2, x) == WordAt(a, x);
      }
    }
  }

  /** A term's word is packed or cleared. */
  lemma WordsPacked(a: Words, pk: Pockets, slots: Slots, t: nat, w: nat, pos: u32)
    requires WordsOk(a, pk, slots) && !IsSlot(WordAt(a, t)) && t != 0 && !IsSlot(w)
    requires WordOk(map[t := w], map[t := pos], t)
    ensures WordsOk(a[t := w], pk[t := pos], slots)
  {
    var a2, pk2 := a[t := w], pk[t := pos];
    forall k: nat, j: nat | k in slots && j < |slots[k]| && slots[k][j].tid != 0
      ensures WordAt(a2, slots[k][j].tid) == SlotWord(k, j)
    {
      SlotOfTerm(a, pk, slots, k, j);
    }
    forall x
      ensures WordOk(a2, pk2, x) && (IsSlot(WordAt(a2, x)) ==> Addresses(WordAt(a2, x), slots, x))
    {
      if x != t {
        assert WordOk(a, pk, x);
        assert WordAt(a2, x) == WordAt(a, x);
      }
    }
  }
}
