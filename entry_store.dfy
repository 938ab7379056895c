/** The entry store that backs a dict, seen only through the operations the
    dict layer calls on it. Its hashing, probing, tombstones and resizing are
    not part of this model: the store is a sequence of slots, each either a
    live (key, value) pair or a dead slot left behind by a removal, and key
    equality is equality of the modelled objects. */
module EntryStore {
  import opened Objects

  type Slot = Option<(Obj, Obj)>

  /** The pairs a slot contributes to iteration: one if live, none if dead. */
  function SlotItems(x: Slot): seq<(Obj, Obj)> {
    if x.Some? then [x.value] else []
  }

  /** The live pairs of a store, in slot order (insertion order). */
  function Items(s: seq<Slot>): (r: seq<(Obj, Obj)>)
  {
    if s == [] then [] else Items(s[..|s| - 1]) + SlotItems(s[|s| - 1])
  }

  predicate KeyAt(s: seq<Slot>, i: nat, k: Obj)
    requires i < |s|
  {
    s[i].Some? && s[i].value.0 == k
  }

  /** Invariant of every store: no two live slots hold the same key. */
  ghost predicate KeysUnique(s: seq<Slot>) {
    forall i, j | 0 <= i < j < |s| :: s[i].Some? && s[j].Some? ==> s[i].value.0 != s[j].value.0
  }

  /** The first slot at index `i` or later that holds key `k`. */
  function IndexFrom(s: seq<Slot>, k: Obj, i: nat): (r: Option<nat>)
    ensures r.Some? ==> i <= r.value < |s| && KeyAt(s, r.value, k)
    decreases |s| - i
  {
    if i >= |s| then None
    else if KeyAt(s, i, k) then Some(i)
    else IndexFrom(s, k, i + 1)
  }

  /** `IndexFrom` finds the first slot holding `k`, and finds none only
      when no slot from `i` on holds it. */
  lemma {:induction false} IndexFromFirst(s: seq<Slot>, k: Obj, i: nat)
    ensures IndexFrom(s, k, i).Some? ==> forall j | i <= j < IndexFrom(s, k, i).value :: !KeyAt(s, j, k)
    ensures IndexFrom(s, k, i).None? ==> forall j | i <= j < |s| :: !KeyAt(s, j, k)
    decreases |s| - i
  {
    if i < |s| && !KeyAt(s, i, k) {
      IndexFromFirst(s, k, i + 1);
    }
  }

  /** The slot that holds key `k`, if any (the first one). */
  function IndexOf(s: seq<Slot>, k: Obj): Option<nat> {
    IndexFrom(s, k, 0)
  }

  /** `IndexOf` is characterised by the first slot holding the key. */
  lemma IndexOfIs(s: seq<Slot>, k: Obj, i: nat)
    requires i < |s| && KeyAt(s, i, k)
    requires forall j | 0 <= j < i :: !KeyAt(s, j, k)
    ensures IndexOf(s, k) == Some(i)
  {
    IndexFromFirst(s, k, 0);
  }

  lemma IndexOfNone(s: seq<Slot>, k: Obj)
    requires forall j | 0 <= j < |s| :: !KeyAt(s, j, k)
    ensures IndexOf(s, k) == None
  {
    IndexFromFirst(s, k, 0);
  }

  /** Two slot sequences that agree on where `k` is agree on `IndexOf(_, k)`. */
  lemma IndexOfSame(s: seq<Slot>, t: seq<Slot>, k: Obj)
    requires |s| == |t|
    requires forall j | 0 <= j < |s| :: KeyAt(s, j, k) == KeyAt(t, j, k)
    ensures IndexOf(s, k) == IndexOf(t, k)
  {
    IndexFromFirst(s, k, 0);
    match IndexOf(s, k)
    case Some(i) => IndexOfIs(t, k, i);
    case None => IndexOfNone(t, k);
  }

  /** The value stored under `k`, if any. */
  function Lookup(s: seq<Slot>, k: Obj): Option<Obj> {
    match IndexOf(s, k)
    case Some(i) => Some(s[i].value.1)
    case None => None
  }

  /** The slots after inserting `k: v`: an existing key keeps its slot and
      gets the new value, a new key is appended as a fresh slot. */
  function InsertSlots(s: seq<Slot>, k: Obj, v: Obj): seq<Slot> {
    match IndexOf(s, k)
    case Some(i) => s[i := Some((k, v))]
    case None => s + [Some((k, v))]
  }

  /** The slots after removing `k`: its slot, if any, becomes dead. */
  function RemoveKey(s: seq<Slot>, k: Obj): seq<Slot> {
    match IndexOf(s, k)
    case Some(i) => s[i := None]
    case None => s
  }

  /** The slots after inserting every pair of `ps`, in order. */
  function InsertAll(s: seq<Slot>, ps: seq<(Obj, Obj)>): seq<Slot> {
    if ps == [] then s
    else InsertSlots(InsertAll(s, ps[..|ps| - 1]), ps[|ps| - 1].0, ps[|ps| - 1].1)
  }

  /** The value of the last pair of `ps` whose key is `k`. */
  function LastValue(ps: seq<(Obj, Obj)>, k: Obj): Option<Obj> {
    if ps == [] then None
    else if ps[|ps| - 1].0 == k then Some(ps[|ps| - 1].1)
    else LastValue(ps[..|ps| - 1], k)
  }

  /** The first live slot at index `pos` or later. */
  function NextLive(s: seq<Slot>, pos: nat): (r: Option<nat>)
    ensures r.Some? ==> pos <= r.value < |s| && s[r.value].Some?
    decreases |s| - pos
  {
    if pos >= |s| then None
    else if s[pos].Some? then Some(pos)
    else NextLive(s, pos + 1)
  }

  /** `NextLive` skips only dead slots, and finds none only when every slot
      from `pos` on is dead. */
  lemma {:induction false} NextLiveSkips(s: seq<Slot>, pos: nat)
    ensures NextLive(s, pos).Some? ==> forall j | pos <= j < NextLive(s, pos).value :: s[j].None?
    ensures NextLive(s, pos).None? ==> forall j | pos <= j < |s| :: s[j].None?
    decreases |s| - pos
  {
    if pos < |s| && s[pos].None? {
      NextLiveSkips(s, pos + 1);
    }
  }

  function Min(a: nat, b: nat): nat {
    if a <= b then a else b
  }

  /** The size snapshot iterators compare against: number of slots and of
      live entries. */
  datatype DictSize = DictSize(entries: nat, used: nat)

  // ---------------------------------------------------------------------
  // Lemmas about the slot functions

  lemma {:induction false} ItemsConcat(a: seq<Slot>, b: seq<Slot>)
    ensures Items(a + b) == Items(a) + Items(b)
    decreases |b|
  {
    if b == [] {
      assert a + b == a;
    } else {
      var b' := b[..|b| - 1];
      assert (a + b)[..|a + b| - 1] == a + b';
      assert (a + b)[|a + b| - 1] == b[|b| - 1];
      ItemsConcat(a, b');
    }
  }

  /** `ItemsConcat` for a store already known to be the concatenation. */
  lemma ItemsConcatAt(a: seq<Slot>, b: seq<Slot>, c: seq<Slot>)
    requires c == a + b
    ensures Items(c) == Items(a) + Items(b)
  {
    ItemsConcat(a, b);
  }

  /** A single slot contributes exactly its own pairs. */
  lemma ItemsSingle(x: Slot)
    ensures Items([x]) == SlotItems(x)
  {
    assert [x][..0] == [];
  }

  // Facts about slicing, kept apart from `Items` so that proving them does
  // not unfold it.

  lemma TakeSnoc<T>(s: seq<T>, i: nat)
    requires i < |s|
    ensures s[..i + 1] == s[..i] + [s[i]]
  {
  }

  lemma DropCons<T>(s: seq<T>, i: nat)
    requires i < |s|
    ensures s[i..] == [s[i]] + s[i + 1..]
  {
  }

  lemma TakeJoin<T>(s: seq<T>, p: nat, i: nat)
    requires p <= i <= |s|
    ensures s[..i] == s[..p] + s[p..i]
  {
  }

  lemma DropJoin<T>(s: seq<T>, p: nat, i: nat)
    requires p <= i <= |s|
    ensures s[p..] == s[p..i] + s[i..]
  {
  }

  lemma Split<T>(s: seq<T>, i: nat)
    requires i <= |s|
    ensures s == s[..i] + s[i..]
  {
  }

  /** Replacing element `i` leaves the slices around it as they were. */
  lemma UpdateSlices<T>(s: seq<T>, i: nat, x: T)
    requires i < |s|
    ensures s[i := x][..i] == s[..i] && s[i := x][i + 1..] == s[i + 1..]
  {
  }

  /** Splitting the slots around index `i`. */
  lemma ItemsSplit(s: seq<Slot>, i: nat)
    requires i < |s|
    ensures Items(s) == Items(s[..i]) + SlotItems(s[i]) + Items(s[i + 1..])
  {
    TakeSnoc(s, i);
    Split(s, i + 1);
    ItemsConcatAt(s[..i + 1], s[i + 1..], s);
    ItemsConcatAt(s[..i], [s[i]], s[..i + 1]);
    ItemsSingle(s[i]);
  }

  lemma {:induction false} ItemsOfDead(s: seq<Slot>)
    requires forall j | 0 <= j < |s| :: s[j].None?
    ensures Items(s) == []
    decreases |s|
  {
    if s != [] {
      ItemsOfDead(s[..|s| - 1]);
    }
  }

  lemma {:induction false} ItemsBound(s: seq<Slot>)
    ensures |Items(s)| <= |s|
    decreases |s|
  {
    if s != [] {
      ItemsBound(s[..|s| - 1]);
    }
  }

  /** Every live pair is in `Items`, and every pair of `Items` is a live slot. */
  lemma {:induction false} ItemsMembers(s: seq<Slot>, kv: (Obj, Obj))
    ensures kv in Items(s) <==> exists i | 0 <= i < |s| :: s[i] == Some(kv)
    decreases |s|
  {
    if s != [] {
      var s' := s[..|s| - 1];
      ItemsMembers(s', kv);
      if kv in Items(s') {
        var i :| 0 <= i < |s'| && s'[i] == Some(kv);
        assert s[i] == Some(kv);
      }
      if exists i | 0 <= i < |s| :: s[i] == Some(kv) {
        var i :| 0 <= i < |s| && s[i] == Some(kv);
        if i < |s'| {
          assert s'[i] == Some(kv);
        }
      }
    }
  }

  /** Slots `p` to `i` are all dead: they hold no pairs. */
  lemma ItemsOfDeadSlice(s: seq<Slot>, p: nat, i: nat)
    requires p <= i <= |s|
    requires forall j | p <= j < i :: s[j].None?
    ensures Items(s[p..i]) == []
  {
    var d := s[p..i];
    assert forall j | 0 <= j < |d| :: d[j].None?;
    ItemsOfDead(d);
  }

  /** Slots from `p` on are all dead: they hold no pairs. */
  lemma ItemsOfDeadSuffix(s: seq<Slot>, p: nat)
    requires p <= |s|
    requires forall j | p <= j < |s| :: s[j].None?
    ensures Items(s[p..]) == []
  {
    var d := s[p..];
    assert forall j | 0 <= j < |d| :: d[j].None?;
    ItemsOfDead(d);
  }

  /** Dead slots from `p` up to a live slot `i`: the pairs up to and
      including `i` are those before `p` and then `i`'s. */
  lemma ItemsSkipDead(s: seq<Slot>, p: nat, i: nat)
    requires p <= i < |s| && s[i].Some?
    requires forall j | p <= j < i :: s[j].None?
    ensures Items(s[..i + 1]) == Items(s[..p]) + [s[i].value]
  {
    TakeJoin(s, p, i);
    ItemsConcatAt(s[..p], s[p..i], s[..i]);
    ItemsOfDeadSlice(s, p, i);
    assert Items(s[..i]) == Items(s[..p]);
    TakeSnoc(s, i);
    ItemsConcatAt(s[..i], [s[i]], s[..i + 1]);
    ItemsSingle(s[i]);
  }

  /** Only dead slots from `p` on: the pairs are those before `p`. */
  lemma ItemsDeadTail(s: seq<Slot>, p: nat)
    requires p <= |s|
    requires forall j | p <= j < |s| :: s[j].None?
    ensures Items(s) == Items(s[..p])
  {
    Split(s, p);
    ItemsConcatAt(s[..p], s[p..], s);
    ItemsOfDeadSuffix(s, p);
  }

  /** Scanning from `p` to the next live slot `i` adds exactly that slot's
      pair to the pairs already passed. */
  lemma NextLiveStep(s: seq<Slot>, p: nat)
    requires p <= |s|
    ensures NextLive(s, p).Some? ==>
      Items(s[..NextLive(s, p).value + 1]) == Items(s[..p]) + [s[NextLive(s, p).value].value]
    ensures NextLive(s, p).None? ==> Items(s) == Items(s[..p])
  {
    var r := NextLive(s, p);
    NextLiveSkips(s, p);
    if r.Some? {
      ItemsSkipDead(s, p, r.value);
    } else {
      ItemsDeadTail(s, p);
    }
  }

  /** Dead slots from `p` up to a live slot `i`: the pairs from `p` on are
      `i`'s and then those after it. */
  lemma ItemsFromDead(s: seq<Slot>, p: nat, i: nat)
    requires p <= i < |s| && s[i].Some?
    requires forall j | p <= j < i :: s[j].None?
    ensures Items(s[p..]) == [s[i].value] + Items(s[i + 1..])
  {
    DropJoin(s, p, i);
    ItemsConcatAt(s[p..i], s[i..], s[p..]);
    ItemsOfDeadSlice(s, p, i);
    assert Items(s[p..]) == Items(s[i..]);
    DropCons(s, i);
    ItemsConcatAt([s[i]], s[i + 1..], s[i..]);
    ItemsSingle(s[i]);
  }

  /** Scanning from `p` visits exactly the pairs of `Items(s[p..])`, in order. */
  lemma NextLiveFront(s: seq<Slot>, p: nat)
    requires p <= |s|
    ensures NextLive(s, p).Some? ==>
      Items(s[p..]) == [s[NextLive(s, p).value].value] + Items(s[NextLive(s, p).value + 1..])
    ensures NextLive(s, p).None? ==> Items(s[p..]) == []
  {
    var r := NextLive(s, p);
    NextLiveSkips(s, p);
    if r.Some? {
      ItemsFromDead(s, p, r.value);
    } else {
      ItemsOfDeadSuffix(s, p);
    }
  }

  /** The same, as the head and tail an iterator sees. */
  lemma NextLiveHead(s: seq<Slot>, p: nat)
    requires p <= |s|
    ensures NextLive(s, p).Some? ==>
      var rest := Items(s[p..]);
      |rest| > 0 && rest[0] == s[NextLive(s, p).value].value && rest[1..] == Items(s[NextLive(s, p).value + 1..])
    ensures NextLive(s, p).None? ==> Items(s[p..]) == []
  {
    NextLiveFront(s, p);
    if NextLive(s, p).Some? {
      var i := NextLive(s, p).value;
      var rest := Items(s[p..]);
      assert rest == [s[i].value] + Items(s[i + 1..]);
      assert rest[1..] == Items(s[i + 1..]);
    }
  }

  /** The same, for the pair `(k, v)` found at the next live slot. */
  lemma ItemsAtNext(s: seq<Slot>, p: nat, k: Obj, v: Obj, next: nat)
    requires p <= |s| && NextLive(s, p).Some? && s[NextLive(s, p).value] == Some((k, v))
    requires next == NextLive(s, p).value + 1
    ensures next <= |s| && Items(s[p..]) == [(k, v)] + Items(s[next..])
  {
    NextLiveFront(s, p);
  }

  /** `Items` seen from its front: the pairs of slot 0, then the rest. */
  lemma ItemsFront(s: seq<Slot>)
    requires s != []
    ensures Items(s) == SlotItems(s[0]) + Items(s[1..])
  {
    DropCons(s, 0);
    assert s[0..] == s;
    ItemsConcatAt([s[0]], s[1..], s);
    ItemsSingle(s[0]);
  }

  /** A position before the live count always has a live slot at or after
      it: fewer than `p` live slots fit in the first `p` slots. */
  lemma LiveSlotAtOrAfter(s: seq<Slot>, p: nat)
    requires p < |Items(s)|
    ensures NextLive(s, p).Some?
  {
    if NextLive(s, p).None? {
      assert p <= |s| by { ItemsBound(s); }
      NextLiveStep(s, p);
      ItemsBound(s[..p]);
      assert false;
    }
  }

  /** With no dead slots, the slots are exactly the live pairs. */
  lemma {:induction false} ItemsOfLive(s: seq<Slot>)
    requires forall j | 0 <= j < |s| :: s[j].Some?
    ensures |Items(s)| == |s|
    ensures forall j | 0 <= j < |s| :: Items(s)[j] == s[j].value
    decreases |s|
  {
    if s != [] {
      ItemsOfLive(s[..|s| - 1]);
    }
  }

  lemma LookupInsert(s: seq<Slot>, k: Obj, v: Obj, k': Obj)
    ensures Lookup(InsertSlots(s, k, v), k') == if k' == k then Some(v) else Lookup(s, k')
  {
    var t := InsertSlots(s, k, v);
    IndexFromFirst(s, k, 0);
    IndexFromFirst(s, k', 0);
    match IndexOf(s, k)
    case Some(i) =>
      assert forall j | 0 <= j < |t| && j != i :: t[j] == s[j];
      assert forall j | 0 <= j < |t| && j != i :: KeyAt(t, j, k') == KeyAt(s, j, k');
      if k' == k {
        IndexOfIs(t, k, i);
      } else {
        IndexOfSame(s, t, k');
      }
    case None =>
      assert forall j | 0 <= j < |s| :: t[j] == s[j];
      assert forall j | 0 <= j < |s| :: KeyAt(t, j, k') == KeyAt(s, j, k');
      if k' == k {
        IndexOfIs(t, k, |s|);
      } else {
        match IndexOf(s, k')
        case Some(j) => IndexOfIs(t, k', j);
        case None => IndexOfNone(t, k');
      }
  }

  /** Inserting keeps the order of the live pairs: an existing key keeps its
      place with the new value, a new key goes last. The live count grows
      exactly when the key was absent. */
  lemma InsertKeepsOrder(s: seq<Slot>, k: Obj, v: Obj)
    ensures IndexOf(s, k).Some? ==>
      var i := IndexOf(s, k).value;
      Items(InsertSlots(s, k, v)) == Items(s[..i]) + [(k, v)] + Items(s[i + 1..])
      && Items(s) == Items(s[..i]) + [s[i].value] + Items(s[i + 1..])
    ensures IndexOf(s, k).None? ==> Items(InsertSlots(s, k, v)) == Items(s) + [(k, v)]
    ensures |Items(InsertSlots(s, k, v))| == |Items(s)| + (if Lookup(s, k).None? then 1 else 0)
  {
    var t := InsertSlots(s, k, v);
    match IndexOf(s, k)
    case Some(i) =>
      ItemsSplit(s, i);
      ItemsSplit(t, i);
      UpdateSlices(s, i, Some((k, v)));
    case None =>
      ItemsConcatAt(s, [Some((k, v))], t);
      ItemsSingle(Some((k, v)));
  }

  lemma InsertKeepsUnique(s: seq<Slot>, k: Obj, v: Obj)
    requires KeysUnique(s)
    ensures KeysUnique(InsertSlots(s, k, v))
  {
    var t := InsertSlots(s, k, v);
    IndexFromFirst(s, k, 0);
    match IndexOf(s, k)
    case Some(i) =>
      assert forall j | 0 <= j < |t| :: t[j].Some? == s[j].Some? && (t[j].Some? ==> t[j].value.0 == s[j].value.0);
    case None =>
      assert forall j | 0 <= j < |s| :: t[j] == s[j] && !KeyAt(s, j, k);
  }

  /** Inserting a pair the store already holds changes nothing. */
  lemma InsertPresent(s: seq<Slot>, k: Obj, v: Obj)
    requires Lookup(s, k) == Some(v)
    ensures InsertSlots(s, k, v) == s
  {
    var i := IndexOf(s, k).value;
    assert s[i] == Some((k, v));
  }

  lemma LookupRemove(s: seq<Slot>, k: Obj, k': Obj)
    requires KeysUnique(s)
    ensures Lookup(RemoveKey(s, k), k') == if k' == k then None else Lookup(s, k')
    ensures KeysUnique(RemoveKey(s, k))
  {
    var t := RemoveKey(s, k);
    IndexFromFirst(s, k, 0);
    match IndexOf(s, k)
    case Some(i) =>
      assert forall j | 0 <= j < |t| && j != i :: t[j] == s[j];
      if k' == k {
        assert forall j | 0 <= j < |t| :: !KeyAt(t, j, k);
        IndexOfNone(t, k);
      } else {
        assert forall j | 0 <= j < |t| :: KeyAt(t, j, k') == KeyAt(s, j, k');
        IndexOfSame(s, t, k');
      }
    case None =>
  }

  /** Emptying a live slot drops exactly its pair from the live pairs. */
  lemma ItemsClearSlot(s: seq<Slot>, i: nat)
    requires i < |s| && s[i].Some?
    ensures Items(s[i := None]) == Items(s[..i]) + Items(s[i + 1..])
    ensures Items(s) == Items(s[..i]) + [s[i].value] + Items(s[i + 1..])
  {
    ItemsSplit(s, i);
    ItemsSplit(s[i := None], i);
    UpdateSlices(s, i, None);
  }

  /** Removing a present key drops exactly its pair from the live pairs. */
  lemma RemoveKeepsOrder(s: seq<Slot>, k: Obj)
    requires IndexOf(s, k).Some?
    ensures
      var i := IndexOf(s, k).value;
      Items(RemoveKey(s, k)) == Items(s[..i]) + Items(s[i + 1..])
      && Items(s) == Items(s[..i]) + [s[i].value] + Items(s[i + 1..])
    ensures |Items(RemoveKey(s, k))| + 1 == |Items(s)|
  {
    var i := IndexOf(s, k).value;
    assert RemoveKey(s, k) == s[i := None] && s[i].Some?;
    ItemsClearSlot(s, i);
  }

  /** Inserting one more pair at the end of `ps`. */
  lemma InsertAllSnoc(s: seq<Slot>, ps: seq<(Obj, Obj)>, kv: (Obj, Obj))
    ensures InsertAll(s, ps + [kv]) == InsertSlots(InsertAll(s, ps), kv.0, kv.1)
  {
    var qs := ps + [kv];
    assert qs[..|qs| - 1] == ps;
  }

  lemma {:induction false} InsertAllConcat(s: seq<Slot>, ps: seq<(Obj, Obj)>, qs: seq<(Obj, Obj)>)
    ensures InsertAll(s, ps + qs) == InsertAll(InsertAll(s, ps), qs)
    decreases |qs|
  {
    if qs == [] {
      assert ps + qs == ps;
    } else {
      var qs' := qs[..|qs| - 1];
      assert (ps + qs)[..|ps + qs| - 1] == ps + qs';
      InsertAllConcat(s, ps, qs');
    }
  }

  lemma {:induction false} InsertAllKeepsUnique(s: seq<Slot>, ps: seq<(Obj, Obj)>)
    requires KeysUnique(s)
    ensures KeysUnique(InsertAll(s, ps))
    decreases |ps|
  {
    if ps != [] {
      InsertAllKeepsUnique(s, ps[..|ps| - 1]);
      InsertKeepsUnique(InsertAll(s, ps[..|ps| - 1]), ps[|ps| - 1].0, ps[|ps| - 1].1);
    }
  }

  /** Later insertions win: after inserting `ps`, a key holds the value of
      its last pair in `ps`, or its old value if `ps` does not mention it. */
  lemma {:induction false} LookupInsertAll(s: seq<Slot>, ps: seq<(Obj, Obj)>, k: Obj)
    ensures Lookup(InsertAll(s, ps), k) == if LastValue(ps, k).Some? then LastValue(ps, k) else Lookup(s, k)
    decreases |ps|
  {
    if ps != [] {
      var ps' := ps[..|ps| - 1];
      LookupInsertAll(s, ps', k);
      LookupInsert(InsertAll(s, ps'), ps[|ps| - 1].0, ps[|ps| - 1].1, k);
    }
  }

  /** Inserting pairs that are all already stored changes nothing. */
  lemma {:induction false} InsertAllPresent(s: seq<Slot>, ps: seq<(Obj, Obj)>)
    requires forall j | 0 <= j < |ps| :: Lookup(s, ps[j].0) == Some(ps[j].1)
    ensures InsertAll(s, ps) == s
    decreases |ps|
  {
    if ps != [] {
      var ps' := ps[..|ps| - 1];
      InsertAllPresent(s, ps');
      InsertPresent(s, ps[|ps| - 1].0, ps[|ps| - 1].1);
    }
  }

  /** Every live pair is what `Lookup` finds for its key. */
  lemma LookupLive(s: seq<Slot>, i: nat)
    requires KeysUnique(s) && i < |s| && s[i].Some?
    ensures Lookup(s, s[i].value.0) == Some(s[i].value.1)
  {
    var k := s[i].value.0;
    forall j | 0 <= j < i ensures !KeyAt(s, j, k) {
      if s[j].Some? {
        assert s[j].value.0 != s[i].value.0;
      }
    }
    IndexOfIs(s, k, i);
  }

  /** Merging a store into itself changes nothing. */
  lemma InsertAllSelf(s: seq<Slot>)
    requires KeysUnique(s)
    ensures InsertAll(s, Items(s)) == s
  {
    var ps := Items(s);
    forall j | 0 <= j < |ps| ensures Lookup(s, ps[j].0) == Some(ps[j].1) {
      ItemsMembers(s, ps[j]);
      var i :| 0 <= i < |s| && s[i] == Some(ps[j]);
      LookupLive(s, i);
    }
    InsertAllPresent(s, ps);
  }

  /** Looking up in slots extended by one more slot. */
  lemma LookupSnoc(s: seq<Slot>, x: Slot, k: Obj)
    ensures Lookup(s + [x], k) ==
      if Lookup(s, k).Some? then Lookup(s, k)
      else if x.Some? && x.value.0 == k then Some(x.value.1)
      else None
  {
    var t := s + [x];
    assert forall j | 0 <= j < |s| :: t[j] == s[j];
    assert forall j | 0 <= j < |s| :: KeyAt(t, j, k) == KeyAt(s, j, k);
    IndexFromFirst(s, k, 0);
    match IndexOf(s, k)
    case Some(i) => IndexOfIs(t, k, i);
    case None =>
      if x.Some? && x.value.0 == k {
        IndexOfIs(t, k, |s|);
      } else {
        IndexOfNone(t, k);
      }
  }

  /** With unique keys, the last pair for `k` among the live pairs is the
      one `Lookup` finds. */
  lemma {:induction false} LastValueItems(s: seq<Slot>, k: Obj)
    requires KeysUnique(s)
    ensures LastValue(Items(s), k) == Lookup(s, k)
    decreases |s|
  {
    if s != [] {
      var s', x := s[..|s| - 1], s[|s| - 1];
      assert s == s' + [x];
      LastValueItems(s', k);
      LookupSnoc(s', x, k);
      if x.Some? {
        assert Items(s) == Items(s') + [x.value];
        assert (Items(s') + [x.value])[..|Items(s')|] == Items(s');
      } else {
        assert Items(s) == Items(s');
      }
    }
  }

  /** The pairs visited by following `NextLive` from `pos` to the end. */
  function Drain(s: seq<Slot>, pos: nat): seq<(Obj, Obj)>
    decreases |s| - pos
  {
    match NextLive(s, pos)
    case None => []
    case Some(i) => [s[i].value] + Drain(s, i + 1)
  }

  /** Following `NextLive` from `pos` yields the live pairs from `pos` on,
      in insertion order. */
  lemma {:induction false} DrainIsItems(s: seq<Slot>, pos: nat)
    requires pos <= |s|
    ensures Drain(s, pos) == Items(s[pos..])
    decreases |s| - pos
  {
    NextLiveFront(s, pos);
    if NextLive(s, pos).Some? {
      DrainIsItems(s, NextLive(s, pos).value + 1);
    }
  }

  // ---------------------------------------------------------------------
  // The store itself

  /** The abstract entry store (`dictdatatype::Dict`). */
  class Store {
    var slots: seq<Slot>
    var len: nat

    ghost predicate Valid()
      reads this
    {
      len == |Items(slots)| && KeysUnique(slots)
    }

    constructor ()
      ensures Valid() && slots == [] && len == 0
    {
      slots := [];
      len := 0;
    }

    /** The snapshot that iterators take (`size()`). */
    function Size(): DictSize
      reads this
    {
      DictSize(|slots|, len)
    }

    /** `has_changed_size`: the current snapshot differs from `snapshot`. */
    function HasChangedSize(snapshot: DictSize): bool
      reads this
    {
      Size() != snapshot
    }

    /** The slot holding `k`, by a forward scan. */
    method Find(k: Obj) returns (r: Option<nat>)
      ensures r == IndexOf(slots, k)
    {
      var i := 0;
      while i < |slots|
        invariant 0 <= i <= |slots|
        invariant forall j | 0 <= j < i :: !KeyAt(slots, j, k)
      {
        if slots[i].Some? && slots[i].value.0 == k {
          IndexOfIs(slots, k, i);
          return Some(i);
        }
        i := i + 1;
      }
      IndexOfNone(slots, k);
      return None;
    }

    /** `get`: the value stored under `k`. */
    method Get(k: Obj) returns (r: Option<Obj>)
      ensures r == Lookup(slots, k)
    {
      var idx := Find(k);
      r := if idx.Some? then Some(slots[idx.value].value.1) else None;
    }

    /** `contains`. */
    method Contains(k: Obj) returns (b: bool)
      ensures b <==> Lookup(slots, k).Some?
    {
      var idx := Find(k);
      b := idx.Some?;
    }

    /** `insert`: overwrite the value of a present key in its slot, or
        append a new slot. */
    method Insert(k: Obj, v: Obj)
      requires Valid()
      modifies this
      ensures Valid() && slots == InsertSlots(old(slots), k, v)
      ensures Lookup(slots, k) == Some(v)
      ensures len == old(len) + (if Lookup(old(slots), k).None? then 1 else 0)
    {
      InsertKeepsOrder(slots, k, v);
      InsertKeepsUnique(slots, k, v);
      LookupInsert(slots, k, v, k);
      var idx := Find(k);
      if idx.Some? {
        slots := slots[idx.value := Some((k, v))];
      } else {
        slots := slots + [Some((k, v))];
        len := len + 1;
      }
    }

    /** `pop`: remove `k` and return its value, or None if absent. */
    method Pop(k: Obj) returns (r: Option<Obj>)
      requires Valid()
      modifies this
      ensures Valid() && slots == RemoveKey(old(slots), k)
      ensures r == Lookup(old(slots), k)
      ensures len == old(len) - (if r.Some? then 1 else 0)
    {
      var idx := Find(k);
      LookupRemove(slots, k, k);
      if idx.Some? {
        RemoveKeepsOrder(slots, k);
        r := Some(slots[idx.value].value.1);
        slots := slots[idx.value := None];
        len := len - 1;
      } else {
        r := None;
      }
    }

    /** `delete`: remove `k`, or raise KeyError carrying `k` if absent. */
    method Delete(k: Obj) returns (r: Result<()>)
      requires Valid()
      modifies this
      ensures Valid() && slots == RemoveKey(old(slots), k)
      ensures r == if Lookup(old(slots), k).Some? then Ok(()) else Err(Exception(KeyError, k))
    {
      var v := Pop(k);
      r := if v.Some? then Ok(()) else Err(Exception(KeyError, k));
    }

    /** `clear`: drop every slot. */
    method Clear()
      requires Valid()
      modifies this
      ensures Valid() && slots == [] && len == 0
    {
      slots := [];
      len := 0;
    }

    /** `pop_front`: remove and return the first live pair. */
    method PopFront() returns (r: Option<(Obj, Obj)>)
      requires Valid()
      modifies this
      ensures Valid()
      ensures old(Items(slots)) == [] ==> r == None && slots == old(slots)
      ensures old(Items(slots)) != [] ==>
        r == Some(old(Items(slots))[0]) && Items(slots) == old(Items(slots))[1..]
        && slots == RemoveKey(old(slots), r.value.0)
    {
      var e, next := NextEntry(0);
      NextLiveFront(slots, 0);
      NextLiveSkips(slots, 0);
      assert slots[0..] == slots;
      if e.Some? {
        var i := next - 1;
        LookupLive(slots, i);
        IndexOfIs(slots, e.value.0, i);
        LookupRemove(slots, e.value.0, e.value.0);
        RemoveKeepsOrder(slots, e.value.0);
        ItemsOfDead(slots[..i]);
        slots := slots[i := None];
        len := len - 1;
      }
      r := e;
    }

    /** `next_entry`: the first live pair at index `pos` or later, and the
        position just past it; at the end, the position moves to the end. */
    method NextEntry(pos: nat) returns (r: Option<(Obj, Obj)>, next: nat)
      ensures NextLive(slots, pos).Some? ==>
        r == slots[NextLive(slots, pos).value] && next == NextLive(slots, pos).value + 1
      ensures NextLive(slots, pos).None? ==> r == None && next == if pos < |slots| then |slots| else pos
    {
      var i := pos;
      while i < |slots|
        invariant pos <= i && (i <= |slots| || i == pos)
        invariant forall j | pos <= j < i && j < |slots| :: slots[j].None?
        invariant NextLive(slots, pos) == NextLive(slots, i)
      {
        if slots[i].Some? {
          return slots[i], i + 1;
        }
        i := i + 1;
      }
      return None, i;
    }

    /** `len_from_entry_index`: the number of live pairs at `pos` or later. */
    method LenFromEntryIndex(pos: nat) returns (n: nat)
      ensures n == |Items(slots[Min(pos, |slots|)..])|
    {
      var i := |slots|;
      n := 0;
      while i > pos
        invariant Min(pos, |slots|) <= i <= |slots|
        invariant n == |Items(slots[i..])|
      {
        i := i - 1;
        ItemsFront(slots[i..]);
        assert slots[i..][1..] == slots[i + 1..];
        if slots[i].Some? {
          n := n + 1;
        }
      }
    }

    /** `clone`: an independent store holding the same pairs. */
    method Clone() returns (c: Store)
      requires Valid()
      ensures fresh(c) && c.Valid() && c.slots == slots && c.len == len
    {
      c := new Store();
      c.slots := slots;
      c.len := len;
    }
  }
}
