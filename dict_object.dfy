/** The built-in `dict` type's method layer over the abstract entry store:
    construction and merging, lookups with and without defaults, removal,
    the `|` operators, equality and hashing. Interpreter calls the methods
    make (a subclass's `__missing__`, `bool_eq`, identity, a mapping's
    `__getitem__`) are parameters or fields and never fail except as their
    `Result` says. */
module DictObject {
  import opened Objects
  import opened EntryStore

  const POPITEM_EMPTY := "popitem(): dictionary is empty"
  const NOT_TWO_ELEMENTS := "Iterator must have exactly two elements"
  const UNHASHABLE := "unhashable type"

  /** Where `dict(x)` and `d.update(x)` take their positional pairs from. */
  datatype MergeSource =
    | FromDict(d: Dict)
      /** an object with `keys()`: the keys it lists and its `__getitem__` */
    | FromMapping(keys: seq<Obj>, getItem: Obj -> Result<Obj>)
      /** any other iterable: what iterating each of its elements yields */
    | FromIterable(elements: seq<seq<Obj>>)

  /** The right operand of `|`, `|=` and reflected `|`. */
  datatype Operand = DictOperand(d: Dict) | OtherOperand(o: Obj)

  datatype CmpOp = Lt | Le | Eq | Ne | Gt | Ge

  datatype CmpValue = Implemented(b: bool) | NotImplemented

  /** `op.eval_ord(a.cmp(&b))`. */
  function EvalOrd(op: CmpOp, a: nat, b: nat): bool {
    match op
    case Lt => a < b
    case Le => a <= b
    case Eq => a == b
    case Ne => a != b
    case Gt => a > b
    case Ge => a >= b
  }

  /** One element of an iterable source: exactly two items make a pair. */
  function ElementPair(e: seq<Obj>): Result<(Obj, Obj)> {
    if |e| == 2 then Ok((e[0], e[1])) else Raise(TypeError, NOT_TWO_ELEMENTS)
  }

  /** One key of a mapping source, paired with what `__getitem__` gives. */
  function MappingPair(k: Obj, getItem: Obj -> Result<Obj>): Result<(Obj, Obj)> {
    match getItem(k)
    case Ok(v) => Ok((k, v))
    case Err(e) => Err(e)
  }

  /** The outcome of each positional element, in iteration order. */
  function SourceOutcomes(src: Option<MergeSource>, dictItems: seq<(Obj, Obj)>): seq<Result<(Obj, Obj)>> {
    match src
    case None => []
    case Some(FromDict(_)) => seq(|dictItems|, i requires 0 <= i < |dictItems| => Ok(dictItems[i]))
    case Some(FromMapping(keys, getItem)) => seq(|keys|, i requires 0 <= i < |keys| => MappingPair(keys[i], getItem))
    case Some(FromIterable(es)) => seq(|es|, i requires 0 <= i < |es| => ElementPair(es[i]))
  }

  /** The pairs before the first failing element, and that element's error. */
  function Collect(rs: seq<Result<(Obj, Obj)>>): (r: (seq<(Obj, Obj)>, Option<Exc>))
    ensures |r.0| <= |rs| && forall j | 0 <= j < |r.0| :: rs[j] == Ok(r.0[j])
    ensures r.1.None? ==> |r.0| == |rs|
    ensures r.1.Some? ==> |r.0| < |rs| && rs[|r.0|] == Err(r.1.value)
  {
    if rs == [] then ([], None)
    else
      var (ps, err) := Collect(rs[..|rs| - 1]);
      if err.Some? then (ps, err)
      else match rs[|rs| - 1]
        case Ok(p) => (ps + [p], None)
        case Err(e) => (ps, Some(e))
  }

  /** `Collect` is determined by the first failing element. */
  lemma CollectAt(rs: seq<Result<(Obj, Obj)>>, ps: seq<(Obj, Obj)>)
    requires |ps| <= |rs| && forall j | 0 <= j < |ps| :: rs[j] == Ok(ps[j])
    requires |ps| < |rs| ==> rs[|ps|].Err?
    ensures Collect(rs) == (ps, if |ps| < |rs| then Some(rs[|ps|].exc) else None)
  {
    var (qs, err) := Collect(rs);
    assert |qs| == |ps|;
    assert qs == ps by {
      forall j | 0 <= j < |ps| ensures qs[j] == ps[j] {
        assert rs[j] == Ok(qs[j]);
      }
    }
  }

  /** Keyword arguments become pairs keyed by `str` objects. */
  function KwPairs(kwargs: seq<(string, Obj)>): (r: seq<(Obj, Obj)>)
    ensures |r| == |kwargs| && forall j | 0 <= j < |r| :: r[j] == (Str(kwargs[j].0), kwargs[j].1)
  {
    seq(|kwargs|, i requires 0 <= i < |kwargs| => (Str(kwargs[i].0), kwargs[i].1))
  }

  /** Everything `merge` inserts: the positional pairs, then, if they all
      were well formed, the keyword pairs. */
  function MergedPairs(src: Option<MergeSource>, dictItems: seq<(Obj, Obj)>, kwargs: seq<(string, Obj)>): seq<(Obj, Obj)> {
    var (ps, err) := Collect(SourceOutcomes(src, dictItems));
    if err.None? then ps + KwPairs(kwargs) else ps
  }

  function MergeResult(src: Option<MergeSource>, dictItems: seq<(Obj, Obj)>): Result<()> {
    var (_, err) := Collect(SourceOutcomes(src, dictItems));
    if err.None? then Ok(()) else Err(err.value)
  }

  /** `get_item_option` on a dict whose store holds `slots` and whose class
      has the `__missing__` hook `missing`: a KeyError from the hook reads
      as absent. */
  function ItemOption(slots: seq<Slot>, missing: Option<Obj -> Result<Obj>>, k: Obj): Result<Option<Obj>> {
    match Lookup(slots, k)
    case Some(v) => Ok(Some(v))
    case None =>
      match missing
      case None => Ok(None)
      case Some(hook) =>
        match hook(k)
        case Ok(v) => Ok(Some(v))
        case Err(e) => if e.kind == KeyError then Ok(None) else Err(e)
  }

  /** The per-pair loop of `inner_cmp`: each pair of the smaller dict is
      looked up in the larger one; an identical value passes, otherwise, when
      values are compared, `bool_eq` decides. */
  function CmpPairs(ps: seq<(Obj, Obj)>, bigSlots: seq<Slot>, bigMissing: Option<Obj -> Result<Obj>>,
                    item: bool, isSame: (Obj, Obj) -> bool, boolEq: (Obj, Obj) -> Result<bool>): Result<bool>
  {
    if ps == [] then Ok(true)
    else
      var (k, v1) := ps[0];
      match ItemOption(bigSlots, bigMissing, k)
      case Err(e) => Err(e)
      case Ok(None) => Ok(false)
      case Ok(Some(v2)) =>
        if isSame(v1, v2) || !item then CmpPairs(ps[1..], bigSlots, bigMissing, item, isSame, boolEq)
        else match boolEq(v1, v2)
          case Err(e) => Err(e)
          case Ok(false) => Ok(false)
          case Ok(true) => CmpPairs(ps[1..], bigSlots, bigMissing, item, isSame, boolEq)
  }

  /** Two values match when they are the same object or `bool_eq` says so. */
  predicate ValuesMatch(v1: Obj, v2: Obj, isSame: (Obj, Obj) -> bool, boolEq: (Obj, Obj) -> Result<bool>) {
    isSame(v1, v2) || boolEq(v1, v2) == Ok(true)
  }

  /** When no hook and no `bool_eq` call fails, the comparison loop succeeds
      exactly when every pair's key is in the larger dict with a matching
      value. */
  lemma {:induction false} CmpPairsMeaning(ps: seq<(Obj, Obj)>, bigSlots: seq<Slot>,
                                           isSame: (Obj, Obj) -> bool, boolEq: (Obj, Obj) -> Result<bool>)
    requires forall a, b :: boolEq(a, b).Ok?
    ensures CmpPairs(ps, bigSlots, None, true, isSame, boolEq) ==
      Ok(forall j | 0 <= j < |ps| ::
           Lookup(bigSlots, ps[j].0).Some? && ValuesMatch(ps[j].1, Lookup(bigSlots, ps[j].0).value, isSame, boolEq))
    decreases |ps|
  {
    if ps != [] {
      CmpPairsMeaning(ps[1..], bigSlots, isSame, boolEq);
      assert forall j | 1 <= j < |ps| :: ps[j] == ps[1..][j - 1];
    }
  }

  /** The outcome of `d1 == d2` for dicts holding `a` and `b`, `d1`'s
      `__missing__` hook being `missing`: a length check, then each pair of
      `d2` is looked up in `d1`. */
  function DictEq(a: seq<Slot>, missing: Option<Obj -> Result<Obj>>, b: seq<Slot>,
                  isSame: (Obj, Obj) -> bool, boolEq: (Obj, Obj) -> Result<bool>): Result<bool>
  {
    if |Items(a)| != |Items(b)| then Ok(false)
    else CmpPairs(Items(b), a, missing, true, isSame, boolEq)
  }

  /** Equality of two plain dicts whose value comparisons do not fail: equal
      lengths, and every key of one present in the other with an identical
      or `bool_eq` value. */
  lemma DictEqMeaning(a: seq<Slot>, b: seq<Slot>, isSame: (Obj, Obj) -> bool, boolEq: (Obj, Obj) -> Result<bool>)
    requires forall x, y :: boolEq(x, y).Ok?
    ensures DictEq(a, None, b, isSame, boolEq) ==
      Ok(|Items(a)| == |Items(b)| &&
         forall j | 0 <= j < |Items(b)| ::
           Lookup(a, Items(b)[j].0).Some? && ValuesMatch(Items(b)[j].1, Lookup(a, Items(b)[j].0).value, isSame, boolEq))
  {
    CmpPairsMeaning(Items(b), a, isSame, boolEq);
  }

  /** Pairs that each find their own value in `big` pass the comparison
      through the identity shortcut alone: `bool_eq` is never called, so it
      may fail everywhere. */
  lemma {:induction false} CmpPairsSelf(ps: seq<(Obj, Obj)>, big: seq<Slot>, isSame: (Obj, Obj) -> bool,
                                        boolEq: (Obj, Obj) -> Result<bool>)
    requires forall x :: isSame(x, x)
    requires forall j | 0 <= j < |ps| :: Lookup(big, ps[j].0) == Some(ps[j].1)
    ensures CmpPairs(ps, big, None, true, isSame, boolEq) == Ok(true)
  {
    if ps != [] {
      assert Lookup(big, ps[0].0) == Some(ps[0].1);
      CmpPairsSelf(ps[1..], big, isSame, boolEq);
    }
  }

  /** A dict equals itself when identity is reflexive, whatever `bool_eq`
      does: every pair finds its own value, and the identity check skips the
      value comparison. */
  lemma DictEqReflexive(a: seq<Slot>, isSame: (Obj, Obj) -> bool, boolEq: (Obj, Obj) -> Result<bool>)
    requires KeysUnique(a)
    requires forall x :: isSame(x, x)
    ensures DictEq(a, None, a, isSame, boolEq) == Ok(true)
  {
    forall j | 0 <= j < |Items(a)| ensures Lookup(a, Items(a)[j].0) == Some(Items(a)[j].1) {
      ItemsMembers(a, Items(a)[j]);
      var i :| 0 <= i < |a| && a[i] == Some(Items(a)[j]);
      LookupLive(a, i);
    }
    CmpPairsSelf(Items(a), a, isSame, boolEq);
  }

  /** `a | b` and `a |= b`: `b`'s pairs win on shared keys, and keys only
      in `a` keep their values. */
  lemma UnionLookup(a: seq<Slot>, b: seq<Slot>, k: Obj)
    requires KeysUnique(b)
    ensures Lookup(InsertAll(a, Items(b)), k) == if Lookup(b, k).Some? then Lookup(b, k) else Lookup(a, k)
  {
    LookupInsertAll(a, Items(b), k);
    LastValueItems(b, k);
  }

  /** Keyword arguments override the positional source: a keyword's key
      holds the value of its last occurrence after a successful merge. */
  lemma KeywordsWin(s: seq<Slot>, src: Option<MergeSource>, dictItems: seq<(Obj, Obj)>,
                    kwargs: seq<(string, Obj)>, j: nat)
    requires MergeResult(src, dictItems).Ok?
    requires j < |kwargs| && forall i | j < i < |kwargs| :: kwargs[i].0 != kwargs[j].0
    ensures Lookup(InsertAll(s, MergedPairs(src, dictItems, kwargs)), Str(kwargs[j].0)) == Some(kwargs[j].1)
  {
    var (ps, _) := Collect(SourceOutcomes(src, dictItems));
    var kw := KwPairs(kwargs);
    InsertAllConcat(s, ps, kw);
    LookupInsertAll(InsertAll(s, ps), kw, Str(kwargs[j].0));
    LastValueAt(kw, j);
  }

  /** The last pair for a key is found at its last position. */
  lemma {:induction false} LastValueAt(ps: seq<(Obj, Obj)>, j: nat)
    requires j < |ps| && forall i | j < i < |ps| :: ps[i].0 != ps[j].0
    ensures LastValue(ps, ps[j].0) == Some(ps[j].1)
    decreases |ps|
  {
    if j < |ps| - 1 {
      LastValueAt(ps[..|ps| - 1], j);
    }
  }

  /** A malformed element stops the merge: the pairs before it are in, it
      and everything after it (keywords included) are not. */
  lemma MalformedElementStops(es: seq<seq<Obj>>, kwargs: seq<(string, Obj)>, j: nat)
    requires j < |es| && |es[j]| != 2 && forall i | 0 <= i < j :: |es[i]| == 2
    ensures MergeResult(Some(FromIterable(es)), []) == Raise(TypeError, NOT_TWO_ELEMENTS)
    ensures MergedPairs(Some(FromIterable(es)), [], kwargs) == seq(j, i requires 0 <= i < j => (es[i][0], es[i][1]))
  {
    var rs := SourceOutcomes(Some(FromIterable(es)), []);
    var ps := seq(j, i requires 0 <= i < j => (es[i][0], es[i][1]));
    CollectAt(rs, ps);
  }

  /** The pairs `dict.fromkeys(keys, value)` inserts. */
  function FromKeysPairs(keys: seq<Obj>, value: Obj): seq<(Obj, Obj)> {
    seq(|keys|, i requires 0 <= i < |keys| => (keys[i], value))
  }

  /** One more key gives one more pair at the end. */
  lemma FromKeysSnoc(keys: seq<Obj>, value: Obj, i: nat)
    requires i < |keys|
    ensures FromKeysPairs(keys[..i + 1], value) == FromKeysPairs(keys[..i], value) + [(keys[i], value)]
  {
  }

  /** `dict.fromkeys` maps exactly the listed keys, each to the one value. */
  lemma FromKeysLookup(keys: seq<Obj>, value: Obj, k: Obj)
    ensures Lookup(InsertAll([], FromKeysPairs(keys, value)), k) == if k in keys then Some(value) else None
  {
    var ps := FromKeysPairs(keys, value);
    LookupInsertAll([], ps, k);
    LastValueFromKeys(keys, value, k);
    assert Lookup([], k) == None;
  }

  lemma {:induction false} LastValueFromKeys(keys: seq<Obj>, value: Obj, k: Obj)
    ensures LastValue(FromKeysPairs(keys, value), k) == if k in keys then Some(value) else None
    decreases |keys|
  {
    if keys != [] {
      var keys' := keys[..|keys| - 1];
      LastValueFromKeys(keys', value, k);
      assert FromKeysPairs(keys, value)[..|keys| - 1] == FromKeysPairs(keys', value);
      assert keys == keys' + [keys[|keys| - 1]];
    }
  }

  /** The store `merge_dict` has built once the pairs of `s0` before
      position `p` are in: those pairs inserted into `t0`, or, when the two
      dicts share their store, `s0` itself. */
  ghost function MergedUpTo(t0: seq<Slot>, s0: seq<Slot>, p: nat, aliased: bool): seq<Slot>
    requires p <= |s0|
  {
    if aliased then s0 else InsertAll(t0, Items(s0[..p]))
  }

  /** `merge_dict`'s loop at position `p` with no live pair left: all the
      pairs are in. */
  lemma MergeDone(t0: seq<Slot>, s0: seq<Slot>, p: nat, aliased: bool)
    requires p <= |s0| && KeysUnique(s0) && NextLive(s0, p).None?
    requires aliased ==> t0 == s0
    ensures MergedUpTo(t0, s0, p, aliased) == InsertAll(t0, Items(s0))
  {
    NextLiveStep(s0, p);
    if aliased {
      InsertAllSelf(s0);
    }
  }

  /** The same loop at its next live pair `(k, v)`: inserting it gives the
      store up to just after it. */
  lemma MergeNext(t0: seq<Slot>, s0: seq<Slot>, p: nat, aliased: bool, k: Obj, v: Obj)
    requires p <= |s0| && KeysUnique(s0)
    requires NextLive(s0, p).Some? && s0[NextLive(s0, p).value] == Some((k, v))
    ensures InsertSlots(MergedUpTo(t0, s0, p, aliased), k, v) == MergedUpTo(t0, s0, NextLive(s0, p).value + 1, aliased)
  {
    NextLiveStep(s0, p);
    var i := NextLive(s0, p).value;
    if aliased {
      LookupLive(s0, i);
      InsertPresent(s0, k, v);
    } else {
      InsertAllSnoc(t0, Items(s0[..p]), (k, v));
    }
  }

  /** `impl IntoIterator for PyDictRef`: walks the live pairs from a stored
      position, with no size check. */
  class DictIter {
    const dict: Dict
    var position: nat

    constructor (d: Dict)
      ensures dict == d && position == 0
    {
      dict := d;
      position := 0;
    }

    method Next() returns (r: Option<(Obj, Obj)>)
      modifies this
      ensures NextLive(dict.entries.slots, old(position)).Some? ==>
        var i := NextLive(dict.entries.slots, old(position)).value;
        r == dict.entries.slots[i] && position == i + 1
      ensures NextLive(dict.entries.slots, old(position)).None? ==>
        r == None && position == if old(position) < |dict.entries.slots| then |dict.entries.slots| else old(position)
    {
      var e, p := dict.entries.NextEntry(position);
      position := p;
      r := e;
    }

    /** `size_hint`: the live pairs still ahead. */
    method SizeHint() returns (n: nat)
      ensures n == |Items(dict.entries.slots[Min(position, |dict.entries.slots|)..])|
    {
      n := dict.entries.LenFromEntryIndex(position);
    }
  }

  /** A `dict` object: its entry store and, for a subclass, its class's
      `__missing__` method. */
  class Dict {
    const entries: Store
    const missing: Option<Obj -> Result<Obj>>

    ghost predicate Valid()
      reads entries
    {
      entries.Valid()
    }

    /** `tp_new`: an empty dict of a class with the given `__missing__`. */
    constructor (missing: Option<Obj -> Result<Obj>>)
      ensures Valid() && fresh(entries) && entries.slots == [] && this.missing == missing
    {
      entries := new Store();
      this.missing := missing;
    }

    /** `__len__`: the number of live pairs. */
    function Len(): (n: nat)
      requires Valid()
      reads entries
      ensures n == |Items(entries.slots)|
    {
      entries.len
    }

    /** `__bool__`: true exactly when the dict holds a pair. */
    method Bool() returns (b: bool)
      requires Valid()
      ensures b <==> Items(entries.slots) != []
    {
      b := entries.len != 0;
    }

    /** `__hash__`: dicts are never hashable. */
    method Hash() returns (r: Result<()>)
      ensures r.Err? && r.exc == Exception(TypeError, Str(UNHASHABLE))
    {
      r := Raise(TypeError, UNHASHABLE);
    }

    /** `__contains__`: whether the key is stored (no `__missing__`). */
    method Contains(key: Obj) returns (b: bool)
      ensures b <==> Lookup(entries.slots, key).Some?
    {
      b := entries.Contains(key);
    }

    /** `__setitem__`: the key maps to the value; other keys keep theirs. */
    method SetItem(key: Obj, value: Obj)
      requires Valid()
      modifies entries
      ensures Valid() && Lookup(entries.slots, key) == Some(value)
      ensures forall k | k != key :: Lookup(entries.slots, k) == old(Lookup(entries.slots, k))
      ensures entries.slots == InsertSlots(old(entries.slots), key, value)
      ensures old(Lookup(entries.slots, key)).None? ==> Items(entries.slots) == old(Items(entries.slots)) + [(key, value)]
    {
      ghost var s0 := entries.slots;
      forall k | k != key ensures Lookup(InsertSlots(s0, key, value), k) == Lookup(s0, k) {
        LookupInsert(s0, key, value, k);
      }
      InsertKeepsOrder(s0, key, value);
      entries.Insert(key, value);
    }

    /** `__delitem__`: a stored key is removed; an absent one is a KeyError
        carrying the key. */
    method DelItem(key: Obj) returns (r: Result<()>)
      requires Valid()
      modifies entries
      ensures Valid() && Lookup(entries.slots, key).None?
      ensures r == if old(Lookup(entries.slots, key)).Some? then Ok(()) else Err(Exception(KeyError, key))
      ensures forall k | k != key :: Lookup(entries.slots, k) == old(Lookup(entries.slots, k))
      ensures entries.slots == RemoveKey(old(entries.slots), key)
    {
      ghost var s0 := entries.slots;
      LookupRemove(s0, key, key);
      forall k | k != key ensures Lookup(RemoveKey(s0, key), k) == Lookup(s0, k) {
        LookupRemove(s0, key, k);
      }
      r := entries.Delete(key);
    }

    /** `clear`: no pairs left. */
    method Clear()
      requires Valid()
      modifies entries
      ensures Valid() && Items(entries.slots) == [] && entries.slots == []
    {
      entries.Clear();
    }

    /** `get`: the stored value, else the default, else None; never changes
        the dict and never consults `__missing__`. */
    method Get(key: Obj, default: Option<Obj>) returns (r: Obj)
      ensures Lookup(entries.slots, key).Some? ==> r == Lookup(entries.slots, key).value
      ensures Lookup(entries.slots, key).None? && default.Some? ==> r == default.value
      ensures Lookup(entries.slots, key).None? && default.None? ==> r == PyNone
    {
      var v := entries.Get(key);
      r := if v.Some? then v.value else default.GetOr(PyNone);
    }

    /** `inner_getitem_option`: the stored value, else what `__missing__`
        returns, else nothing. */
    method InnerGetItemOption(key: Obj) returns (r: Result<Option<Obj>>)
      ensures Lookup(entries.slots, key).Some? ==> r == Ok(Lookup(entries.slots, key))
      ensures Lookup(entries.slots, key).None? && missing.None? ==> r == Ok(None)
      ensures Lookup(entries.slots, key).None? && missing.Some? ==>
        r == match missing.value(key) { case Ok(v) => Ok(Some(v)) case Err(e) => Err(e) }
    {
      var v := entries.Get(key);
      if v.Some? {
        return Ok(v);
      }
      if missing.Some? {
        var m := missing.value(key);
        if m.Err? {
          return Err(m.exc);
        }
        return Ok(Some(m.value));
      }
      return Ok(None);
    }

    /** `get_item_option`: as `inner_getitem_option`, with a KeyError read
        as absence. */
    method GetItemOption(key: Obj) returns (r: Result<Option<Obj>>)
      ensures r == ItemOption(entries.slots, missing, key)
      ensures r.Err? ==> r.exc.kind != KeyError
    {
      r := InnerGetItemOption(key);
      if r.Err? && r.exc.kind == KeyError {
        r := Ok(None);
      }
    }

    /** `__getitem__`: the stored value or `__missing__`'s, else KeyError
        carrying the key. */
    method GetItem(key: Obj) returns (r: Result<Obj>)
      ensures Lookup(entries.slots, key).Some? ==> r == Ok(Lookup(entries.slots, key).value)
      ensures Lookup(entries.slots, key).None? && missing.None? ==> r == Err(Exception(KeyError, key))
      ensures Lookup(entries.slots, key).None? && missing.Some? ==> r == missing.value(key)
    {
      var v := InnerGetItemOption(key);
      if v.Err? {
        return Err(v.exc);
      }
      if v.value.Some? {
        return Ok(v.value.value);
      }
      return Err(Exception(KeyError, key));
    }

    /** `setdefault`: a present key keeps its value and the dict is
        unchanged; an absent key gets the default (None if omitted),
        appended last. */
    method SetDefault(key: Obj, default: Option<Obj>) returns (r: Obj)
      requires Valid()
      modifies entries
      ensures Valid()
      ensures old(Lookup(entries.slots, key)).Some? ==>
        r == old(Lookup(entries.slots, key)).value && entries.slots == old(entries.slots)
      ensures old(Lookup(entries.slots, key)).None? ==>
        r == default.GetOr(PyNone) && Items(entries.slots) == old(Items(entries.slots)) + [(key, r)]
        && entries.len == old(entries.len) + 1 && Lookup(entries.slots, key) == Some(r)
        && entries.slots == InsertSlots(old(entries.slots), key, r)
    {
      var v := entries.Get(key);
      if v.Some? {
        return v.value;
      }
      r := default.GetOr(PyNone);
      InsertKeepsOrder(entries.slots, key, r);
      entries.Insert(key, r);
    }

    /** `pop`: a present key is removed and its value returned; an absent
        key gives the default, or KeyError carrying the key. */
    method Pop(key: Obj, default: Option<Obj>) returns (r: Result<Obj>)
      requires Valid()
      modifies entries
      ensures Valid()
      ensures old(Lookup(entries.slots, key)).Some? ==>
        r == Ok(old(Lookup(entries.slots, key)).value) && Lookup(entries.slots, key).None?
        && entries.len == old(entries.len) - 1
        && entries.slots == RemoveKey(old(entries.slots), key)
        && forall k | k != key :: Lookup(entries.slots, k) == old(Lookup(entries.slots, k))
      ensures old(Lookup(entries.slots, key)).None? ==>
        entries.slots == old(entries.slots)
        && r == if default.Some? then Ok(default.value) else Err(Exception(KeyError, key))
    {
      ghost var s0 := entries.slots;
      forall k ensures Lookup(RemoveKey(s0, k), k) == None && (forall k' | k' != k :: Lookup(RemoveKey(s0, k), k') == Lookup(s0, k')) {
        LookupRemove(s0, k, k);
        forall k' | k' != k ensures Lookup(RemoveKey(s0, k), k') == Lookup(s0, k') {
          LookupRemove(s0, k, k');
        }
      }
      var v := entries.Pop(key);
      if v.Some? {
        return Ok(v.value);
      }
      if default.Some? {
        return Ok(default.value);
      }
      return Err(Exception(KeyError, key));
    }

    /** `popitem`: on an empty dict, KeyError with the message
        "popitem(): dictionary is empty"; otherwise the 2-tuple of the pair
        `pop_front` removed. */
    method PopItem() returns (r: Result<Obj>)
      requires Valid()
      modifies entries
      ensures Valid()
      ensures old(Items(entries.slots)) == [] ==>
        r == Err(Exception(KeyError, Str(POPITEM_EMPTY))) && entries.slots == old(entries.slots)
      ensures old(Items(entries.slots)) != [] ==>
        var (k, v) := old(Items(entries.slots))[0];
        r == Ok(Tuple([k, v])) && Items(entries.slots) == old(Items(entries.slots))[1..]
        && old(Lookup(entries.slots, k)) == Some(v) && Lookup(entries.slots, k) == None
        && entries.slots == RemoveKey(old(entries.slots), k)
    {
      ghost var s0 := entries.slots;
      var e := entries.PopFront();
      if e.Some? {
        var (k, v) := e.value;
        LookupRemove(s0, k, k);
        ItemsMembers(s0, (k, v));
        ghost var i :| 0 <= i < |s0| && s0[i] == Some((k, v));
        LookupLive(s0, i);
        return Ok(Tuple([k, v]));
      }
      return Err(Exception(KeyError, Str(POPITEM_EMPTY)));
    }

    /** `copy`: a new plain dict with its own store holding the same pairs. */
    method Copy() returns (c: Dict)
      requires Valid()
      ensures fresh(c) && fresh(c.entries) && c.Valid()
      ensures c.entries.slots == entries.slots && c.missing.None?
    {
      c := new Dict(None);
      c.entries.slots := entries.slots;
      c.entries.len := entries.len;
    }

    /** `merge_dict`: insert every pair of `other`, in its order. `other`
        may be this very dict, which the merge then leaves as it was. */
    method MergeDict(other: Dict)
      requires Valid() && other.Valid()
      modifies entries
      ensures Valid()
      ensures entries.slots == InsertAll(old(entries.slots), old(Items(other.entries.slots)))
      ensures other.entries.slots == old(other.entries.slots)
    {
      ghost var s0 := other.entries.slots;
      ghost var t0 := entries.slots;
      ghost var aliased := other.entries == entries;
      assert s0[..0] == [];
      // The `for` loop's `DictIter` holds nothing but its position, which
      // is kept here in `position` and advanced by `next_entry`.
      var position: nat := 0;
      while true
        invariant position <= |s0|
        invariant entries.Valid() && other.entries.slots == s0
        invariant entries.slots == MergedUpTo(t0, s0, position, aliased)
        decreases |s0| - position
      {
        var e, next := other.entries.NextEntry(position);
        if e.None? {
          MergeDone(t0, s0, position, aliased);
          break;
        }
        var (k, v) := e.value;
        MergeNext(t0, s0, position, aliased, k, v);
        entries.Insert(k, v);
        position := next;
        if aliased {
          assert other.entries.slots == entries.slots == s0;
        } else {
          assert other.entries.slots == s0;
        }
      }
    }

    /** The pairs and the outcome of merging a positional source alone. */
    ghost function SourcePairs(src: Option<MergeSource>, dictItems: seq<(Obj, Obj)>): seq<(Obj, Obj)> {
      Collect(SourceOutcomes(src, dictItems)).0
    }

    /** `merge`'s loop over an object with `keys()`: each listed key with
        its `__getitem__` value, until the first failing lookup. */
    method MergeMapping(keys: seq<Obj>, getItem: Obj -> Result<Obj>) returns (r: Result<()>)
      requires Valid()
      modifies entries
      ensures Valid()
      ensures entries.slots == InsertAll(old(entries.slots), SourcePairs(Some(FromMapping(keys, getItem)), []))
      ensures r == MergeResult(Some(FromMapping(keys, getItem)), [])
    {
      ghost var t0 := entries.slots;
      ghost var rs := SourceOutcomes(Some(FromMapping(keys, getItem)), []);
      ghost var ps: seq<(Obj, Obj)> := [];
      var i := 0;
      while i < |keys|
        invariant 0 <= i <= |keys| && |ps| == i && |rs| == |keys|
        invariant forall j | 0 <= j < i :: rs[j] == Ok(ps[j])
        invariant entries.Valid() && entries.slots == InsertAll(t0, ps)
      {
        var v := getItem(keys[i]);
        assert rs[i] == MappingPair(keys[i], getItem);
        if v.Err? {
          CollectAt(rs, ps);
          return Err(v.exc);
        }
        InsertAllSnoc(t0, ps, (keys[i], v.value));
        entries.Insert(keys[i], v.value);
        ps := ps + [(keys[i], v.value)];
        i := i + 1;
      }
      CollectAt(rs, ps);
      r := Ok(());
    }

    /** `merge`'s loop over any other iterable: each element must yield
        exactly two items, the first malformed one stops the loop. */
    method MergeIterable(es: seq<seq<Obj>>) returns (r: Result<()>)
      requires Valid()
      modifies entries
      ensures Valid()
      ensures entries.slots == InsertAll(old(entries.slots), SourcePairs(Some(FromIterable(es)), []))
      ensures r == MergeResult(Some(FromIterable(es)), [])
    {
      ghost var t0 := entries.slots;
      ghost var rs := SourceOutcomes(Some(FromIterable(es)), []);
      ghost var ps: seq<(Obj, Obj)> := [];
      var i := 0;
      while i < |es|
        invariant 0 <= i <= |es| && |ps| == i
        invariant forall j | 0 <= j < i :: rs[j] == Ok(ps[j])
        invariant entries.Valid() && entries.slots == InsertAll(t0, ps)
      {
        var e := es[i];
        if |e| != 2 {
          CollectAt(rs, ps);
          return Raise(TypeError, NOT_TWO_ELEMENTS);
        }
        InsertAllSnoc(t0, ps, (e[0], e[1]));
        entries.Insert(e[0], e[1]);
        ps := ps + [(e[0], e[1])];
        i := i + 1;
      }
      CollectAt(rs, ps);
      r := Ok(());
    }

    /** `merge`'s keyword loop: each keyword, as a `str` key, in order. */
    method MergeKeywords(kwargs: seq<(string, Obj)>)
      requires Valid()
      modifies entries
      ensures Valid()
      ensures entries.slots == InsertAll(old(entries.slots), KwPairs(kwargs))
    {
      ghost var t0 := entries.slots;
      ghost var kw := KwPairs(kwargs);
      var i := 0;
      while i < |kwargs|
        invariant 0 <= i <= |kwargs|
        invariant entries.Valid() && entries.slots == InsertAll(t0, kw[..i])
      {
        entries.Insert(Str(kwargs[i].0), kwargs[i].1);
        assert kw[..i + 1][..i] == kw[..i];
        i := i + 1;
      }
      assert kw[..|kwargs|] == kw;
    }

    /** `merge` (behind `__init__` and `update`): the positional source's
        pairs, then the keyword pairs, each inserted in order so that later
        ones win. A malformed element or a failing `__getitem__` stops the
        merge with the pairs before it already inserted. */
    method Merge(src: Option<MergeSource>, kwargs: seq<(string, Obj)>) returns (r: Result<()>)
      requires Valid()
      requires src.Some? && src.value.FromDict? ==> src.value.d.Valid()
      modifies entries
      ensures Valid()
      ensures
        var dictItems := if src.Some? && src.value.FromDict? then old(Items(src.value.d.entries.slots)) else [];
        entries.slots == InsertAll(old(entries.slots), MergedPairs(src, dictItems, kwargs))
        && r == MergeResult(src, dictItems)
    {
      ghost var t0 := entries.slots;
      ghost var dictItems := if src.Some? && src.value.FromDict? then Items(src.value.d.entries.slots) else [];
      ghost var rs := SourceOutcomes(src, dictItems);
      match src {
        case None =>
          r := Ok(());
        case Some(FromDict(d)) =>
          MergeDict(d);
          CollectAt(rs, dictItems);
          r := Ok(());
        case Some(FromMapping(keys, getItem)) =>
          r := MergeMapping(keys, getItem);
        case Some(FromIterable(es)) =>
          r := MergeIterable(es);
      }
      if r.Err? {
        return;
      }
      MergeKeywords(kwargs);
      InsertAllConcat(t0, SourcePairs(src, dictItems), KwPairs(kwargs));
    }

    /** `fromkeys`: a new dict of the class whose `__missing__` is
        `missing`, mapping each element, in order, to the value (None if
        omitted). */
    static method FromKeys(keys: seq<Obj>, value: Option<Obj>, missing: Option<Obj -> Result<Obj>>) returns (d: Dict)
      ensures fresh(d) && fresh(d.entries) && d.Valid() && d.missing == missing
      ensures d.entries.slots == InsertAll([], FromKeysPairs(keys, value.GetOr(PyNone)))
    {
      d := new Dict(missing);
      var v := value.GetOr(PyNone);
      var i := 0;
      while i < |keys|
        invariant 0 <= i <= |keys|
        invariant d.entries.Valid() && d.entries.slots == InsertAll([], FromKeysPairs(keys[..i], v))
      {
        FromKeysSnoc(keys, v, i);
        InsertAllSnoc([], FromKeysPairs(keys[..i], v), (keys[i], v));
        d.entries.Insert(keys[i], v);
        i := i + 1;
      }
      assert keys[..|keys|] == keys;
    }

    /** `__or__`: a copy of this dict with `other` merged in; a non-dict
        operand is a TypeError. */
    method Or(other: Operand) returns (r: Result<Dict>)
      requires Valid()
      requires other.DictOperand? ==> other.d.Valid()
      ensures other.OtherOperand? ==> r == Raise(TypeError, "__or__ not implemented for non-dict type")
      ensures other.DictOperand? ==>
        r.Ok? && fresh(r.value) && fresh(r.value.entries) && r.value.Valid() && r.value.missing.None?
        && r.value.entries.slots == InsertAll(entries.slots, Items(other.d.entries.slots))
    {
      if other.DictOperand? {
        var cp := Copy();
        cp.MergeDict(other.d);
        return Ok(cp);
      }
      return Raise(TypeError, "__or__ not implemented for non-dict type");
    }

    /** `__ror__`: a copy of `other` with this dict merged in. */
    method Ror(other: Operand) returns (r: Result<Dict>)
      requires Valid()
      requires other.DictOperand? ==> other.d.Valid()
      ensures other.OtherOperand? ==> r == Raise(TypeError, "__ror__ not implemented for non-dict type")
      ensures other.DictOperand? ==>
        r.Ok? && fresh(r.value) && fresh(r.value.entries) && r.value.Valid() && r.value.missing.None?
        && r.value.entries.slots == InsertAll(other.d.entries.slots, Items(entries.slots))
    {
      if other.DictOperand? {
        var cp := other.d.Copy();
        cp.MergeDict(this);
        return Ok(cp);
      }
      return Raise(TypeError, "__ror__ not implemented for non-dict type");
    }

    /** `__ior__`: merge `other` into this dict in place and return it. */
    method Ior(other: Operand) returns (r: Result<Dict>)
      requires Valid()
      requires other.DictOperand? ==> other.d.Valid()
      modifies entries
      ensures Valid()
      ensures other.OtherOperand? ==>
        r == Raise(TypeError, "__ior__ not implemented for non-dict type") && entries.slots == old(entries.slots)
      ensures other.DictOperand? ==>
        r == Ok(this) && entries.slots == InsertAll(old(entries.slots), old(Items(other.d.entries.slots)))
    {
      if other.DictOperand? {
        MergeDict(other.d);
        return Ok(this);
      }
      return Raise(TypeError, "__ior__ not implemented for non-dict type");
    }

    /** The body of `inner_cmp`'s loop for the pair `(k, v1)` followed by
        the pairs `rest`: `k` is looked up in `big`, and a failing lookup, a
        missing key or a value that is neither identical nor, when values
        are compared, equal by `bool_eq` ends the loop with its outcome;
        otherwise the loop goes on with `rest`. */
    static method ComparePair(big: Dict, k: Obj, v1: Obj, item: bool,
                              isSame: (Obj, Obj) -> bool, boolEq: (Obj, Obj) -> Result<bool>,
                              ghost bigSlots: seq<Slot>, ghost rest: seq<(Obj, Obj)>) returns (verdict: Option<Result<bool>>)
      requires big.entries.slots == bigSlots
      ensures verdict.Some? ==> verdict.value == CmpPairs([(k, v1)] + rest, bigSlots, big.missing, item, isSame, boolEq)
      ensures verdict.None? ==>
        CmpPairs([(k, v1)] + rest, bigSlots, big.missing, item, isSame, boolEq)
        == CmpPairs(rest, bigSlots, big.missing, item, isSame, boolEq)
    {
      assert ([(k, v1)] + rest)[0] == (k, v1) && ([(k, v1)] + rest)[1..] == rest;
      var found := big.GetItemOption(k);
      if found.Err? {
        return Some(Err(found.exc));
      }
      if found.value.None? {
        return Some(Ok(false));
      }
      var v2 := found.value.value;
      if isSame(v1, v2) {
        return None;
      }
      if item {
        var eq := boolEq(v1, v2);
        if eq.Err? {
          return Some(Err(eq.exc));
        }
        if !eq.value {
          return Some(Ok(false));
        }
      }
      return None;
    }

    /** `inner_cmp`'s loop: each pair of `small`, in order, looked up in
        `big`. */
    static method CmpLoop(big: Dict, small: Dict, item: bool,
                          isSame: (Obj, Obj) -> bool, boolEq: (Obj, Obj) -> Result<bool>) returns (r: Result<bool>)
      ensures r == CmpPairs(Items(small.entries.slots), big.entries.slots, big.missing, item, isSame, boolEq)
    {
      ghost var s0 := small.entries.slots;
      ghost var bs := big.entries.slots;
      ghost var goal := CmpPairs(Items(s0), bs, big.missing, item, isSame, boolEq);
      assert s0[0..] == s0;
      // The `for` loop's `DictIter` holds nothing but its position, which
      // is kept here in `position` and advanced by `next_entry`.
      var position: nat := 0;
      while true
        invariant position <= |s0|
        invariant goal == CmpPairs(Items(s0[position..]), bs, big.missing, item, isSame, boolEq)
        decreases |s0| - position
      {
        var e, next := small.entries.NextEntry(position);
        if e.None? {
          NextLiveFront(s0, position);
          return Ok(true);
        }
        var (k, v1) := e.value;
        ItemsAtNext(s0, position, k, v1, next);
        position := next;
        var verdict := ComparePair(big, k, v1, item, isSame, boolEq, bs, Items(s0[position..]));
        if verdict.Some? {
          return verdict.value;
        }
      }
    }

    /** `inner_cmp`: compare lengths with `op`; then look every pair of the
        smaller dict (of `other` when the lengths are equal) up in the other
        one. */
    method InnerCmp(other: Dict, op: CmpOp, item: bool,
                    isSame: (Obj, Obj) -> bool, boolEq: (Obj, Obj) -> Result<bool>) returns (r: Result<CmpValue>)
      requires Valid() && other.Valid()
      ensures !EvalOrd(op, |Items(entries.slots)|, |Items(other.entries.slots)|) ==> r == Ok(Implemented(false))
      ensures EvalOrd(op, |Items(entries.slots)|, |Items(other.entries.slots)|) ==>
        var (big, small) := if |Items(entries.slots)| < |Items(other.entries.slots)| then (other, this) else (this, other);
        r == match CmpPairs(Items(small.entries.slots), big.entries.slots, big.missing, item, isSame, boolEq)
             { case Ok(b) => Ok(Implemented(b)) case Err(e) => Err(e) }
    {
      if !EvalOrd(op, entries.len, other.entries.len) {
        return Ok(Implemented(false));
      }
      var big, small := this, other;
      if entries.len < other.entries.len {
        big, small := other, this;
      }
      var b := CmpLoop(big, small, item, isSame, boolEq);
      r := if b.Ok? then Ok(Implemented(b.value)) else Err(b.exc);
    }

    /** `Comparable::cmp` for dicts: only `==` and `!=` between two dicts are
        implemented, `!=` being the negation of `==`. */
    method Cmp(other: Operand, op: CmpOp,
               isSame: (Obj, Obj) -> bool, boolEq: (Obj, Obj) -> Result<bool>) returns (r: Result<CmpValue>)
      requires Valid()
      requires other.DictOperand? ==> other.d.Valid()
      ensures (op != Eq && op != Ne) || other.OtherOperand? ==> r == Ok(NotImplemented)
      ensures (op == Eq || op == Ne) && other.DictOperand? ==>
        r == match DictEq(entries.slots, missing, other.d.entries.slots, isSame, boolEq)
             { case Ok(b) => Ok(Implemented(if op == Eq then b else !b)) case Err(e) => Err(e) }
    {
      if (op != Eq && op != Ne) || other.OtherOperand? {
        return Ok(NotImplemented);
      }
      r := InnerCmp(other.d, Eq, true, isSame, boolEq);
      if op == Ne && r.Ok? && r.value.Implemented? {
        r := Ok(Implemented(!r.value.b));
      }
    }
  }
}
