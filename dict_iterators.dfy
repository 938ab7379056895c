/** The `dict_keys`, `dict_values` and `dict_items` views and their forward
    and reverse iterators, which the `dict_iterator!` macro generates once
    per view kind. */
module DictIterators {
  import opened Objects
  import opened EntryStore
  import opened DictObject

  const CHANGED_SIZE := "dictionary changed size during iteration"

  /** `std::isize::MAX as usize` on a 64-bit target. */
  const ISIZE_MAX: nat := 0x7FFF_FFFF_FFFF_FFFF

  /** The exception `objiter::new_stop_iteration` builds. */
  const STOP: Exc := Exception(StopIteration, PyNone)

  /** Which of the three macro instances: the key, the value, or the
      `(key, value)` tuple is what an iteration step yields. */
  datatype ViewKind = Keys | Values | ItemPairs

  /** The macro's `$result_fn`. */
  function Project(kind: ViewKind, kv: (Obj, Obj)): (r: Obj)
    ensures kind == Keys ==> r == kv.0
    ensures kind == Values ==> r == kv.1
    ensures kind == ItemPairs ==> r.Tuple? && r.items == [kv.0, kv.1]
  {
    match kind
    case Keys => kv.0
    case Values => kv.1
    case ItemPairs => Tuple([kv.0, kv.1])
  }

  /** A view object: a kind and the dict it looks at. */
  class DictView {
    const kind: ViewKind
    const dict: Dict

    constructor (kind: ViewKind, d: Dict)
      ensures this.kind == kind && dict == d
    {
      this.kind := kind;
      dict := d;
    }

    /** `__len__`: the dict's number of pairs. */
    function Len(): (n: nat)
      requires dict.Valid()
      reads dict.entries
      ensures n == |Items(dict.entries.slots)|
    {
      dict.Len()
    }

    /** `__iter__`: a fresh forward iterator of the same kind. */
    method Iter() returns (it: ViewIterator)
      requires dict.Valid()
      ensures fresh(it) && it.Valid() && it.kind == kind && it.dict == dict && it.position == 0
      ensures it.size == dict.entries.Size()
    {
      it := new ViewIterator(kind, dict);
    }

    /** `__reversed__`: a fresh reverse iterator of the same kind. */
    method Reversed() returns (it: ReverseViewIterator)
      requires dict.Valid()
      ensures fresh(it) && it.Valid() && it.kind == kind && it.dict == dict && it.position == 1
      ensures it.size == dict.entries.Size()
    {
      it := new ReverseViewIterator(kind, dict);
    }

    /** `Comparable::cmp` for views: against a view of the same kind, the
        dicts are compared with `op` (values compared except for key
        views); anything else, sets included, is NotImplemented. */
    method Cmp(other: Option<DictView>, op: CmpOp,
               isSame: (Obj, Obj) -> bool, boolEq: (Obj, Obj) -> Result<bool>) returns (r: Result<CmpValue>)
      requires dict.Valid()
      requires other.Some? ==> other.value.dict.Valid()
      ensures other.None? || other.value.kind != kind ==> r == Ok(NotImplemented)
      ensures other.Some? && other.value.kind == kind ==>
        var (a, b) := (dict.entries.slots, other.value.dict.entries.slots);
        (!EvalOrd(op, |Items(a)|, |Items(b)|) ==> r == Ok(Implemented(false))) &&
        (EvalOrd(op, |Items(a)|, |Items(b)|) ==>
          var (big, small) := if |Items(a)| < |Items(b)| then (other.value.dict, dict) else (dict, other.value.dict);
          r == match CmpPairs(Items(small.entries.slots), big.entries.slots, big.missing, kind != Keys, isSame, boolEq)
               { case Ok(b) => Ok(Implemented(b)) case Err(e) => Err(e) })
    {
      if other.None? || other.value.kind != kind {
        return Ok(NotImplemented);
      }
      r := dict.InnerCmp(other.value.dict, op, kind != Keys, isSame, boolEq);
    }
  }

  /** `dict.keys()`, `dict.values()` and `dict.items()`. */
  method ViewOf(d: Dict, kind: ViewKind) returns (v: DictView)
    ensures fresh(v) && v.kind == kind && v.dict == d
  {
    v := new DictView(kind, d);
  }

  /** `dict.__iter__`: a forward key iterator. */
  method DictIterKeys(d: Dict) returns (it: ViewIterator)
    requires d.Valid()
    ensures fresh(it) && it.Valid() && it.kind == Keys && it.dict == d && it.position == 0
    ensures it.size == d.entries.Size()
  {
    it := new ViewIterator(Keys, d);
  }

  /** `dict.__reversed__`: a reverse key iterator. */
  method DictReversedKeys(d: Dict) returns (it: ReverseViewIterator)
    requires d.Valid()
    ensures fresh(it) && it.Valid() && it.kind == Keys && it.dict == d && it.position == 1
    ensures it.size == d.entries.Size()
  {
    it := new ReverseViewIterator(Keys, d);
  }

  /** The forward iterator: a size snapshot taken at creation and an entry
      position that each successful step moves past the pair it read. */
  class ViewIterator {
    const kind: ViewKind
    const dict: Dict
    const size: DictSize
    var position: nat

    ghost predicate Valid()
      reads this, dict.entries
    {
      dict.Valid()
    }

    constructor (kind: ViewKind, d: Dict)
      requires d.Valid()
      ensures Valid() && this.kind == kind && dict == d && position == 0 && size == d.entries.Size()
    {
      this.kind := kind;
      dict := d;
      size := d.entries.Size();
      position := 0;
    }

    /** `__next__`: a changed size is a RuntimeError and leaves the position
        alone; otherwise the next live pair at or after the position is
        projected and the position moves just past it, and when there is
        none the iterator raises StopIteration and keeps its position. */
    method Next() returns (r: Result<Obj>)
      requires Valid()
      modifies this
      ensures Valid()
      ensures dict.entries.HasChangedSize(size) ==>
        r == Raise(RuntimeError, CHANGED_SIZE) && position == old(position)
      ensures !dict.entries.HasChangedSize(size) && NextLive(dict.entries.slots, old(position)).Some? ==>
        var i := NextLive(dict.entries.slots, old(position)).value;
        r == Ok(Project(kind, dict.entries.slots[i].value)) && position == i + 1
      ensures !dict.entries.HasChangedSize(size) && NextLive(dict.entries.slots, old(position)).None? ==>
        r == Err(STOP) && position == old(position)
    {
      if dict.entries.HasChangedSize(size) {
        return Raise(RuntimeError, CHANGED_SIZE);
      }
      var e, p := dict.entries.NextEntry(position);
      if e.Some? {
        position := p;
        return Ok(Project(kind, e.value));
      }
      return Err(STOP);
    }

    /** `__length_hint__`: the live pairs at or after the position. */
    method LengthHint() returns (n: nat)
      ensures n == |Items(dict.entries.slots[Min(position, |dict.entries.slots|)..])|
    {
      n := dict.entries.LenFromEntryIndex(position);
    }
  }

  /** Following the forward iterator's steps from position 0 on an unchanged
      dict visits exactly its pairs, in insertion order. `Drain` follows
      `NextLive` from slot to slot, which is the step `ViewIterator.Next`'s
      ensures gives (the pair at `NextLive(slots, position)`, the position
      moved just past it); the lemma is stated on `Drain` and reaches the
      iterator through that ensures. */
  lemma ForwardVisitsItems(s: seq<Slot>)
    ensures Drain(s, 0) == Items(s)
  {
    DrainIsItems(s, 0);
    assert s[0..] == s;
  }

  /** The reverse iterator: a size snapshot and a call counter that starts at
      1; the k-th call reads from entry index `len - k`. */
  class ReverseViewIterator {
    const kind: ViewKind
    const dict: Dict
    const size: DictSize
    var position: nat

    ghost predicate Valid()
      reads this, dict.entries
    {
      dict.Valid() && position >= 1
    }

    constructor (kind: ViewKind, d: Dict)
      requires d.Valid()
      ensures Valid() && this.kind == kind && dict == d && position == 1 && size == d.entries.Size()
    {
      this.kind := kind;
      dict := d;
      size := d.entries.Size();
      position := 1;
    }

    /** `__next__`: a changed size is a RuntimeError and leaves the counter
        alone. Otherwise the counter is taken and incremented; while it is at
        most `len` there is a live slot at or after entry index
        `len - count` (so the engine lookup never comes back empty) and its
        pair is projected; past `len` the counter is parked at `isize::MAX`
        and StopIteration is raised. */
    method Next() returns (r: Result<Obj>)
      requires Valid()
      modifies this
      ensures Valid()
      ensures dict.entries.HasChangedSize(size) ==>
        r == Raise(RuntimeError, CHANGED_SIZE) && position == old(position)
      ensures !dict.entries.HasChangedSize(size) && old(position) <= |Items(dict.entries.slots)| ==>
        NextLive(dict.entries.slots, |Items(dict.entries.slots)| - old(position)).Some?
      ensures !dict.entries.HasChangedSize(size) && old(position) <= |Items(dict.entries.slots)| ==>
        var i := NextLive(dict.entries.slots, |Items(dict.entries.slots)| - old(position)).value;
        r == Ok(Project(kind, dict.entries.slots[i].value)) && position == old(position) + 1
      ensures !dict.entries.HasChangedSize(size) && old(position) > |Items(dict.entries.slots)| ==>
        r == Err(STOP) && position == ISIZE_MAX
    {
      if dict.entries.HasChangedSize(size) {
        return Raise(RuntimeError, CHANGED_SIZE);
      }
      var count := position;
      position := position + 1;
      var len := dict.Len();
      if count <= len {
        var pos := len - count;
        LiveSlotAtOrAfter(dict.entries.slots, pos);
        var e, _ := dict.entries.NextEntry(pos);
        return Ok(Project(kind, e.value));
      }
      position := ISIZE_MAX;
      return Err(STOP);
    }

    /** `__length_hint__`: as in the forward iterator, the live pairs at or
        after entry index `position`. */
    method LengthHint() returns (n: nat)
      ensures n == |Items(dict.entries.slots[Min(position, |dict.entries.slots|)..])|
    {
      n := dict.entries.LenFromEntryIndex(position);
    }
  }

  /** Where the k-th reverse step reads from, for a dict holding `s`. */
  function ReverseRead(s: seq<Slot>, k: nat): Option<(Obj, Obj)> {
    if 1 <= k <= |Items(s)| then
      match NextLive(s, |Items(s)| - k)
      case Some(i) => s[i]
      case None => None
    else None
  }

  /** With no deleted slots the reverse iterator is exact: its k-th step
      yields the k-th pair from the end. */
  lemma ReverseExactWithoutHoles(s: seq<Slot>, k: nat)
    requires forall j | 0 <= j < |s| :: s[j].Some?
    requires 1 <= k <= |Items(s)|
    ensures ReverseRead(s, k) == Some(Items(s)[|Items(s)| - k])
  {
    ItemsOfLive(s);
  }

  /** With a deleted slot ahead of the live ones, the entry index `len - 1`
      points into the middle, and the first reverse step yields the first
      live pair rather than the last. */
  lemma ReverseSkewedByHole(a: Obj, b: Obj, x: Obj, y: Obj)
    requires a != b
    ensures var s := [None, Some((a, x)), Some((b, y))];
      Items(s) == [(a, x), (b, y)] && ReverseRead(s, 1) == Some((a, x))
  {
    var s: seq<Slot> := [None, Some((a, x)), Some((b, y))];
    assert s[..2] == [None, Some((a, x))];
    var dead: seq<Slot> := [None];
    assert Items(dead) == [] by { assert dead[..0] == []; }
    assert s[..2][..1] == dead;
    assert Items(s[..2]) == [(a, x)];
    assert Items(s) == [(a, x), (b, y)];
    assert NextLive(s, 1) == Some(1);
  }

  /** The last live slot before index `p`, if any: the step of a reverse
      walk over the slots, as the evidently intended reverse iterator takes
      it. */
  function PrevLive(s: seq<Slot>, p: nat): (r: Option<nat>)
    requires p <= |s|
    ensures r.Some? ==> r.value < p && s[r.value].Some? && forall j | r.value < j < p :: s[j].None?
    ensures r.None? ==> forall j | 0 <= j < p :: s[j].None?
  {
    if p == 0 then None
    else if s[p - 1].Some? then Some(p - 1)
    else PrevLive(s, p - 1)
  }

  /** The pairs a reverse walk yields from slot index `p` down to 0. */
  function ReverseWalk(s: seq<Slot>, p: nat): seq<(Obj, Obj)>
    requires p <= |s|
    decreases p
  {
    match PrevLive(s, p)
    case None => []
    case Some(i) => [s[i].value] + ReverseWalk(s, i)
  }

  function Reversed<T>(xs: seq<T>): (r: seq<T>)
    ensures |r| == |xs| && forall j | 0 <= j < |xs| :: r[j] == xs[|xs| - 1 - j]
  {
    if xs == [] then [] else [xs[|xs| - 1]] + Reversed(xs[..|xs| - 1])
  }

  /** The reverse walk from slot index `p` yields the live pairs before `p`
      in reverse insertion order, dead slots or not. */
  lemma {:induction false} ReverseWalkIsReversedItems(s: seq<Slot>, p: nat)
    requires p <= |s|
    ensures ReverseWalk(s, p) == Reversed(Items(s[..p]))
    decreases p
  {
    if p > 0 {
      var t := s[..p];
      assert t[..p - 1] == s[..p - 1];
      assert Items(t) == Items(s[..p - 1]) + SlotItems(s[p - 1]);
      ReverseWalkIsReversedItems(s, p - 1);
      if s[p - 1].Some? {
        assert PrevLive(s, p) == Some(p - 1);
        assert ReverseWalk(s, p) == [s[p - 1].value] + ReverseWalk(s, p - 1);
        assert Reversed(Items(t)) == [s[p - 1].value] + Reversed(Items(s[..p - 1]));
      } else {
        assert PrevLive(s, p) == PrevLive(s, p - 1);
        assert ReverseWalk(s, p) == ReverseWalk(s, p - 1);
        assert Items(t) == Items(s[..p - 1]);
      }
    } else {
      assert Items(s[..0]) == [];
    }
  }

  /** The evidently intended reverse iterator: walking back from the last
      slot, its k-th step yields the k-th pair from the end, whatever slots
      are dead (compare `ReverseSkewedByHole`). */
  lemma ReverseWalkExact(s: seq<Slot>, k: nat)
    requires 1 <= k <= |Items(s)|
    ensures |ReverseWalk(s, |s|)| == |Items(s)|
    ensures ReverseWalk(s, |s|)[k - 1] == Items(s)[|Items(s)| - k]
  {
    ReverseWalkIsReversedItems(s, |s|);
    assert s[..|s|] == s;
  }
}
