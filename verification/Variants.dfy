// cpp/lib/cppconn_include/cppconn/variant.h: a value type over type-erased content that it
// clones, assigns and destroys by hand. Memory is explicit: a `delete` or a dereference demands
// an allocated address, so every call below is also a proof that nothing is freed twice or
// used after being freed. An allocation returns any free address, freed ones included.

module Variants {
  import opened Wrappers

  /** What a Variant can hold; the constructor is its type name. */
  datatype Content =
    | Int(i: int) | Double(d: real) | Bool(b: bool) | Text(s: string)
    | List(items: seq<string>)
    | Map(entries: map<string, string>)

  /** Which of the three implementation templates owns the content. */
  datatype Kind = VariantImpl | VariantList | VariantMap

  function KindOf(c: Content): Kind {
    if c.List? then VariantList else if c.Map? then VariantMap else VariantImpl
  }

  /** The containers have templates of their own. */
  lemma KindOfExactly(c: Content)
    ensures KindOf(c) == match c case List(_) => VariantList case Map(_) => VariantMap case _ => VariantImpl
  {
  }

  predicate SameType(c: Content, d: Content) {
    c.Int? == d.Int? && c.Double? == d.Double? && c.Bool? == d.Bool? && c.Text? == d.Text? && c.List? == d.List?
  }

  /** Two contents have one type exactly when they are both of one of the six. */
  lemma SameTypeExactly(c: Content, d: Content)
    ensures SameType(c, d) <==>
      (c.Int? && d.Int?) || (c.Double? && d.Double?) || (c.Bool? && d.Bool?) || (c.Text? && d.Text?) ||
      (c.List? && d.List?) || (c.Map? && d.Map?)
  {
  }

  /** An implementation object: its template and its `cvptr`. */
  datatype Impl = Impl(kind: Kind, cvptr: Option<nat>)

  /** The live Variants with their `variant` pointers, and the two sorts of heap cell. */
  datatype Heap = Heap(variants: map<nat, nat>, impls: map<nat, Impl>, contents: map<nat, Content>)

  /** Distinct owners own distinct cells, and there are no more cells than owners: every cell
      has one owner (see `EveryCellOwned`). */
  ghost predicate OneToOne(owns: map<nat, nat>, cells: set<nat>) {
    && |owns| == |cells|
    && (forall o :: o in owns ==> owns[o] in cells)
    && (forall o, o' :: o in owns && o' in owns && owns[o] == owns[o'] ==> o == o')
  }

  /** The impls' `cvptr`s that are not null. */
  function Pointers(impls: map<nat, Impl>): map<nat, nat> {
    map p | p in impls && impls[p].cvptr.Some? :: impls[p].cvptr.value
  }

  /** The impl's pointer is not null, and leads to content of its kind. */
  predicate Filled(h: Heap, p: nat)
    requires p in h.impls
  {
    && h.impls[p].cvptr.Some? && h.impls[p].cvptr.value in h.contents
    && KindOf(h.contents[h.impls[p].cvptr.value]) == h.impls[p].kind
  }

  /** Every live Variant owns one impl and every impl one content cell; owners are distinct,
      and nothing is allocated that nobody owns. */
  ghost predicate Owned(h: Heap) {
    && OneToOne(h.variants, h.impls.Keys)
    && OneToOne(Pointers(h.impls), h.contents.Keys)
    && forall p :: p in h.impls ==> Filled(h, p)
  }

  /** The content a Variant's pointers lead to, if they lead anywhere. */
  function Holds(h: Heap, v: nat): Option<Content> {
    if v in h.variants && h.variants[v] in h.impls && h.impls[h.variants[v]].cvptr.Some?
      && h.impls[h.variants[v]].cvptr.value in h.contents
    then Some(h.contents[h.impls[h.variants[v]].cvptr.value]) else None
  }

  /** What each live Variant holds. */
  function Values(h: Heap): map<nat, Content> {
    map v | v in h.variants && Holds(h, v).Some? :: Holds(h, v).value
  }

  /** Every live Variant holds something. */
  predicate AllHold(h: Heap) {
    forall v | v in h.variants :: Holds(h, v).Some?
  }

  lemma EveryVariantHolds(h: Heap)
    requires Owned(h)
    ensures AllHold(h) && Values(h).Keys == h.variants.Keys
    ensures forall v :: v in h.variants ==> KindOf(Holds(h, v).value) == h.impls[h.variants[v]].kind
  {
    forall v | v in h.variants ensures Holds(h, v).Some? && KindOf(Holds(h, v).value) == h.impls[h.variants[v]].kind {
      assert Filled(h, h.variants[v]);
    }
  }

  /** The content cell a live Variant owns. */
  function CellOf(h: Heap, v: nat): nat
    requires Holds(h, v).Some?
  {
    h.impls[h.variants[v]].cvptr.value
  }

  /** No other Variant shares `v`'s impl or content cell. */
  predicate Apart(h: Heap, v: nat)
    requires AllHold(h) && v in h.variants
  {
    forall w | w in h.variants && w != v :: h.variants[w] != h.variants[v] && CellOf(h, w) != CellOf(h, v)
  }

  lemma OwnersApart(h: Heap, v: nat)
    requires Owned(h) && v in h.variants
    ensures AllHold(h) && Apart(h, v)
  {
    EveryVariantHolds(h);
    forall w | w in h.variants && w != v ensures h.variants[w] != h.variants[v] && CellOf(h, w) != CellOf(h, v) {
      assert h.variants[w] in Pointers(h.impls) && h.variants[v] in Pointers(h.impls);
    }
  }

  // ---------- value semantics ----------

  datatype Op =
    | Construct(v: nat, c: Content)
    | Copy(v: nat, src: nat)
    | Assign(v: nat, src: nat)
    | Destroy(v: nat)
    | Write(v: nat, c: Content)

  /** Scoping, as the language enforces it: new names are new, used names are live. */
  predicate InScope(live: set<nat>, op: Op) {
    match op
    case Construct(v, _) => v !in live
    case Copy(v, src) => v !in live && src in live
    case Assign(v, src) => v in live && src in live
    case Destroy(v) => v in live
    case Write(v, _) => v in live
  }

  /** What a value type would do: a copy takes the value, a write goes to one place only. */
  function Meaning(m: map<nat, Content>, op: Op): map<nat, Content>
    requires InScope(m.Keys, op)
  {
    match op
    case Construct(v, c) => m[v := c]
    case Copy(v, src) => m[v := m[src]]
    case Assign(v, src) => m[v := m[src]]
    case Destroy(v) => m - {v}
    case Write(v, c) => if SameType(m[v], c) then m[v := c] else m
  }

  predicate WellScoped(m: map<nat, Content>, ops: seq<Op>)
    decreases |ops|
  {
    ops == [] || (InScope(m.Keys, ops[0]) && WellScoped(Meaning(m, ops[0]), ops[1..]))
  }

  function Replay(m: map<nat, Content>, ops: seq<Op>): map<nat, Content>
    requires WellScoped(m, ops)
    decreases |ops|
  {
    if ops == [] then m else Replay(Meaning(m, ops[0]), ops[1..])
  }

  // ---------- ownership ----------

  lemma OneToOneAdd(owns: map<nat, nat>, cells: set<nat>, o: nat, c: nat)
    requires OneToOne(owns, cells) && o !in owns && c !in cells
    ensures OneToOne(owns[o := c], cells + {c})
  {
  }

  lemma OneToOneRemove(owns: map<nat, nat>, cells: set<nat>, o: nat)
    requires OneToOne(owns, cells) && o in owns
    ensures OneToOne(owns - {o}, cells - {owns[o]})
  {
    assert (owns - {o}).Keys == owns.Keys - {o};
    assert |owns| == |owns.Keys| && |owns - {o}| == |(owns - {o}).Keys|;
  }

  /** No cell is without an owner: nothing leaks. */
  lemma {:induction false} EveryCellOwned(owns: map<nat, nat>, cells: set<nat>, c: nat)
    requires OneToOne(owns, cells) && c in cells
    ensures exists o :: o in owns && owns[o] == c
    decreases |owns|
  {
    assert owns != map[];
    var o :| o in owns;
    if owns[o] != c {
      OneToOneRemove(owns, cells, o);
      EveryCellOwned(owns - {o}, cells - {owns[o]}, c);
    }
  }

  /** Heap `h` with a new Variant `v` owning impl `p` owning cell `c`. */
  function With(h: Heap, v: nat, p: nat, c: nat, x: Content): Heap {
    Heap(h.variants[v := p], h.impls[p := Impl(KindOf(x), Some(c))], h.contents[c := x])
  }

  lemma PointersAdd(impls: map<nat, Impl>, p: nat, k: Kind, c: nat)
    ensures Pointers(impls[p := Impl(k, Some(c))]) == Pointers(impls)[p := c]
  {
  }

  lemma PointersRemove(impls: map<nat, Impl>, p: nat)
    ensures Pointers(impls - {p}) == Pointers(impls) - {p}
  {
  }

  lemma OwnedWith(h: Heap, v: nat, p: nat, c: nat, x: Content)
    requires Owned(h) && v !in h.variants && p !in h.impls && c !in h.contents
    ensures Owned(With(h, v, p, c, x))
  {
    var h' := With(h, v, p, c, x);
    assert h'.impls.Keys == h.impls.Keys + {p} && h'.contents.Keys == h.contents.Keys + {c};
    assert OneToOne(h'.variants, h'.impls.Keys) by {
      OneToOneAdd(h.variants, h.impls.Keys, v, p);
    }
    assert OneToOne(Pointers(h'.impls), h'.contents.Keys) by {
      PointersAdd(h.impls, p, KindOf(x), c);
      OneToOneAdd(Pointers(h.impls), h.contents.Keys, p, c);
    }
    forall q | q in h'.impls ensures Filled(h', q) {
      if q != p {
        assert Filled(h, q);
      }
    }
  }

  lemma ValuesWith(h: Heap, v: nat, p: nat, c: nat, x: Content)
    requires AllHold(h) && v !in h.variants && p !in h.impls && c !in h.contents
    ensures Values(With(h, v, p, c, x)) == Values(h)[v := x]
  {
    var h' := With(h, v, p, c, x);
    assert Holds(h', v) == Some(x);
    forall w | w in h.variants ensures Holds(h', w) == Holds(h, w) {}
  }

  /** Heap `h` without `v`, its impl and its content cell. */
  function Without(h: Heap, v: nat): Heap
    requires Holds(h, v).Some?
  {
    Heap(h.variants - {v}, h.impls - {h.variants[v]}, h.contents - {CellOf(h, v)})
  }

  lemma OwnedWithout(h: Heap, v: nat)
    requires Owned(h) && Holds(h, v).Some?
    ensures Owned(Without(h, v))
  {
    var h' := Without(h, v);
    var p, c := h.variants[v], CellOf(h, v);
    assert h'.impls.Keys == h.impls.Keys - {p} && h'.contents.Keys == h.contents.Keys - {c};
    assert OneToOne(h'.variants, h'.impls.Keys) by {
      OneToOneRemove(h.variants, h.impls.Keys, v);
    }
    assert p in Pointers(h.impls) && Pointers(h.impls)[p] == c;
    assert OneToOne(Pointers(h'.impls), h'.contents.Keys) by {
      PointersRemove(h.impls, p);
      OneToOneRemove(Pointers(h.impls), h.contents.Keys, p);
    }
    forall q | q in h'.impls ensures Filled(h', q) {
      assert Filled(h, q);
      assert q in Pointers(h.impls);
    }
  }

  lemma ValuesWithout(h: Heap, v: nat)
    requires AllHold(h) && v in h.variants && Apart(h, v)
    ensures Values(Without(h, v)) == Values(h) - {v}
  {
    var h' := Without(h, v);
    forall w | w in h.variants && w != v ensures Holds(h', w) == Holds(h, w) {}
  }

  /** The heap once `v`'s cells are deleted, and what the others still hold in it. */
  lemma Emptied(h: Heap, v: nat, that: nat) returns (h': Heap)
    requires Owned(h) && v in h.variants && that in h.variants && that != v
    ensures Holds(h, v).Some? && h' == Without(h, v)
    ensures Owned(h') && v !in h'.variants && Values(h') == Values(h) - {v}
    ensures Holds(h, that).Some? && Holds(h', that) == Holds(h, that)
    ensures KindOf(Holds(h, that).value) == h.impls[h.variants[that]].kind
  {
    EveryVariantHolds(h);
    OwnersApart(h, v);
    OwnedWithout(h, v);
    ValuesWithout(h, v);
    h' := Without(h, v);
  }

  lemma RemoveThenUpdate<T>(m: map<nat, T>, v: nat, x: T)
    ensures (m - {v})[v := x] == m[v := x]
  {
  }

  /** Giving `v` fresh cells afterwards, possibly at the same addresses. */
  lemma Refilled(m: map<nat, Content>, h: Heap, v: nat, p: nat, c: nat, x: Content)
    requires Owned(h) && v !in h.variants && Values(h) == m - {v}
    requires p !in h.impls && c !in h.contents
    ensures Owned(With(h, v, p, c, x)) && Values(With(h, v, p, c, x)) == m[v := x]
  {
    EveryVariantHolds(h);
    OwnedWith(h, v, p, c, x);
    ValuesWith(h, v, p, c, x);
    RemoveThenUpdate(m, v, x);
  }

  /** The heap after a write through one Variant's content pointer. */
  function Written(h: Heap, v: nat, x: Content): Heap
    requires Holds(h, v).Some?
  {
    h.(contents := h.contents[CellOf(h, v) := x])
  }

  lemma OwnedWritten(h: Heap, v: nat, x: Content)
    requires Owned(h) && Holds(h, v).Some? && KindOf(x) == KindOf(Holds(h, v).value)
    ensures Owned(Written(h, v, x))
  {
    var h' := Written(h, v, x);
    var p := h.variants[v];
    assert h'.contents.Keys == h.contents.Keys;
    assert p in Pointers(h.impls) && Pointers(h.impls)[p] == CellOf(h, v);
    forall q | q in h'.impls ensures Filled(h', q) {
      assert Filled(h, q);
      assert q in Pointers(h.impls);
    }
  }

  /** The write is seen through no other Variant. */
  lemma ValuesWritten(h: Heap, v: nat, x: Content)
    requires AllHold(h) && v in h.variants && Apart(h, v)
    ensures Values(Written(h, v, x)) == Values(h)[v := x]
  {
    var h' := Written(h, v, x);
    assert Holds(h', v) == Some(x);
    forall w | w in h.variants && w != v ensures Holds(h', w) == Holds(h, w) {}
  }

  /** As many impls and content cells as live Variants, each reached from one of them; so none
      of either once all Variants are gone. */
  lemma NothingLeaks(h: Heap)
    requires Owned(h)
    ensures |h.impls| == |h.variants| && |h.contents| == |h.variants|
    ensures forall p :: p in h.impls ==> exists v :: v in h.variants && h.variants[v] == p
    ensures forall c :: c in h.contents ==> exists p :: p in h.impls && h.impls[p].cvptr == Some(c)
  {
    assert forall p :: p in h.impls ==> Filled(h, p);
    assert Pointers(h.impls).Keys == h.impls.Keys;
    assert |Pointers(h.impls)| == |Pointers(h.impls).Keys| == |h.impls.Keys| == |h.impls|;
    forall p | p in h.impls ensures exists v :: v in h.variants && h.variants[v] == p {
      EveryCellOwned(h.variants, h.impls.Keys, p);
    }
    forall c | c in h.contents ensures exists p :: p in h.impls && h.impls[p].cvptr == Some(c) {
      EveryCellOwned(Pointers(h.impls), h.contents.Keys, c);
    }
  }

  lemma {:induction false} Above(used: set<nat>) returns (top: nat)
    ensures forall p :: p in used ==> p < top
  {
    top := 0;
    if used != {} {
      var q :| q in used;
      var below := Above(used - {q});
      top := if q < below then below else q + 1;
      forall p | p in used ensures p < top {
        assert p == q || p in used - {q};
      }
    }
  }

  lemma SomeAddressFree(used: set<nat>)
    ensures exists p: nat :: p !in used
  {
    var top := Above(used);
    assert top !in used;
  }

  // ---------- the operations ----------

  lemma ReplayOne(m: map<nat, Content>, ops: seq<Op>, i: nat)
    requires i < |ops| && WellScoped(m, ops[i..])
    ensures InScope(m.Keys, ops[i]) && WellScoped(Meaning(m, ops[i]), ops[i + 1..])
    ensures Replay(m, ops[i..]) == Replay(Meaning(m, ops[i]), ops[i + 1..])
  {
    assert ops[i..][0] == ops[i] && ops[i..][1..] == ops[i + 1..];
  }

  /** Operations on other Variants only. */
  predicate Spares(ops: seq<Op>, v: nat) {
    forall i :: 0 <= i < |ops| ==> ops[i].v != v
  }

  /** A Variant nobody assigns, writes or destroys keeps its value, whatever it was copied from
      and whatever was copied from it. */
  lemma {:induction false} SparedKeepsValue(m: map<nat, Content>, ops: seq<Op>, v: nat)
    requires v in m && WellScoped(m, ops) && Spares(ops, v)
    ensures v in Replay(m, ops) && Replay(m, ops)[v] == m[v]
    decreases |ops|
  {
    if ops != [] {
      assert ops[0].v != v;
      SparedKeepsValue(Meaning(m, ops[0]), ops[1..], v);
    }
  }

  class Memory {
    var variants: map<nat, nat>
    var impls: map<nat, Impl>
    var contents: map<nat, Content>

    ghost function Snapshot(): Heap
      reads this
    {
      Heap(variants, impls, contents)
    }

    constructor ()
      ensures Owned(Snapshot()) && Values(Snapshot()) == map[]
    {
      variants, impls, contents := map[], map[], map[];
    }

    method NewContent(x: Content) returns (c: nat)
      modifies this`contents
      ensures c !in old(contents) && contents == old(contents)[c := x]
    {
      SomeAddressFree(contents.Keys);
      c :| c !in contents.Keys;
      contents := contents[c := x];
    }

    method NewImpl(i: Impl) returns (p: nat)
      modifies this`impls
      ensures p !in old(impls) && impls == old(impls)[p := i]
    {
      SomeAddressFree(impls.Keys);
      p :| p !in impls.Keys;
      impls := impls[p := i];
    }

    /** `destroy_content`: a container is cleared first; a null pointer is left alone. */
    method DestroyContent(p: nat)
      requires p in impls && (impls[p].cvptr.Some? ==> impls[p].cvptr.value in contents)
      modifies this`impls, this`contents
      ensures impls == old(impls)[p := old(impls)[p].(cvptr := None)]
      ensures contents == match old(impls)[p].cvptr case Some(c) => old(contents) - {c} case None => old(contents)
    {
      match impls[p].cvptr
      case None => assert impls == impls[p := impls[p].(cvptr := None)];
      case Some(c) =>
        match impls[p].kind {
          case VariantImpl =>
          case VariantList => contents := contents[c := List([])];
          case VariantMap => contents := contents[c := Map(map[])];
        }
        contents := contents - {c};
        impls := impls[p := impls[p].(cvptr := None)];
    }

    /** `delete variant`: the destructor of the impl, then its cell. */
    method DeleteImpl(p: nat)
      requires p in impls && (impls[p].cvptr.Some? ==> impls[p].cvptr.value in contents)
      modifies this`impls, this`contents
      ensures impls == old(impls) - {p}
      ensures contents == match old(impls)[p].cvptr case Some(c) => old(contents) - {c} case None => old(contents)
    {
      DestroyContent(p);
      impls := impls - {p};
    }

    /** The list's copy loop: a new empty list, then every element pushed back. */
    method CopyItems(items: seq<string>) returns (c: nat)
      modifies this`contents
      ensures c !in old(contents) && contents == old(contents)[c := List(items)]
    {
      c := NewContent(List([]));
      var cit := 0;
      while cit != |items|
        invariant 0 <= cit <= |items|
        invariant contents == old(contents)[c := List(items[..cit])]
      {
        contents := contents[c := List(contents[c].items + [items[cit]])];
        cit := cit + 1;
        assert items[..cit] == items[..cit - 1] + [items[cit - 1]];
      }
      assert items[..|items|] == items;
    }

    /** The map's copy loop: a new empty map, then every entry inserted. */
    method CopyEntries(entries: map<string, string>) returns (c: nat)
      modifies this`contents
      ensures c !in old(contents) && contents == old(contents)[c := Map(entries)]
    {
      c := NewContent(Map(map[]));
      var rest := entries.Keys;
      assert entries - rest == map[];
      while rest != {}
        invariant rest <= entries.Keys
        invariant contents == old(contents)[c := Map(entries - rest)]
        decreases |rest|
      {
        var key :| key in rest;
        var sofar := contents[c].entries;
        contents := contents[c := Map(sofar[key := entries[key]])];
        assert sofar[key := entries[key]] == entries - (rest - {key});
        rest := rest - {key};
      }
      assert entries - {} == entries;
    }

    /** `copy_content`, of each template. */
    method CopyContent(p: nat, that: nat)
      requires p in impls && that in impls && impls[p].kind == impls[that].kind
      requires impls[that].cvptr.Some? && impls[that].cvptr.value in contents
      requires KindOf(contents[impls[that].cvptr.value]) == impls[that].kind
      modifies this`impls, this`contents
      ensures p in impls && impls[p].cvptr.Some? && impls == old(impls)[p := old(impls)[p].(cvptr := impls[p].cvptr)]
      ensures impls[p].cvptr.value !in old(contents)
      ensures contents == old(contents)[impls[p].cvptr.value := old(contents)[old(impls)[that].cvptr.value]]
    {
      var source := contents[impls[that].cvptr.value];
      var c: nat;
      match impls[p].kind {
        case VariantImpl => c := NewContent(source);
        case VariantList => c := CopyItems(source.items);
        case VariantMap => c := CopyEntries(source.entries);
      }
      impls := impls[p := impls[p].(cvptr := Some(c))];
    }

    /** `Clone`: the base part is copied pointer and all, and the pointer then replaced. */
    method Clone(that: nat) returns (p: nat)
      requires that in impls && impls[that].cvptr.Some? && impls[that].cvptr.value in contents
      requires KindOf(contents[impls[that].cvptr.value]) == impls[that].kind
      modifies this`impls, this`contents
      ensures p !in old(impls)
      ensures p in impls && impls[p].cvptr.Some? && impls[p].cvptr.value !in old(contents)
      ensures var source := old(contents)[old(impls)[that].cvptr.value];
        && contents == old(contents)[impls[p].cvptr.value := source]
        && impls == old(impls)[p := Impl(KindOf(source), impls[p].cvptr)]
    {
      p := NewImpl(impls[that]);
      CopyContent(p, that);
    }

    method ConstructVariant(v: nat, x: Content)
      requires Owned(Snapshot()) && v !in variants
      modifies this
      ensures Owned(Snapshot()) && Values(Snapshot()) == old(Values(Snapshot()))[v := x]
    {
      EveryVariantHolds(Snapshot());
      var c := NewContent(x);
      var p := NewImpl(Impl(KindOf(x), Some(c)));
      variants := variants[v := p];
      OwnedWith(old(Snapshot()), v, p, c, x);
      ValuesWith(old(Snapshot()), v, p, c, x);
    }

    method CopyVariant(v: nat, that: nat)
      requires Owned(Snapshot()) && v !in variants && that in variants
      modifies this
      ensures Owned(Snapshot()) && that in old(Values(Snapshot()))
      ensures Values(Snapshot()) == old(Values(Snapshot()))[v := old(Values(Snapshot()))[that]]
    {
      EveryVariantHolds(Snapshot());
      ghost var x := Holds(Snapshot(), that).value;
      var p := Clone(variants[that]);
      variants := variants[v := p];
      OwnedWith(old(Snapshot()), v, p, impls[p].cvptr.value, x);
      ValuesWith(old(Snapshot()), v, p, impls[p].cvptr.value, x);
    }

    /** The two statements of `operator=` after its guard: delete, then clone. */
    method ReplaceVariant(v: nat, that: nat)
      requires Owned(Snapshot()) && v in variants && that in variants && v != that
      modifies this
      ensures Owned(Snapshot()) && that in old(Values(Snapshot()))
      ensures Values(Snapshot()) == old(Values(Snapshot()))[v := old(Values(Snapshot()))[that]]
    {
      ghost var h := Emptied(Snapshot(), v, that);
      ghost var x := Holds(h, that).value;
      DeleteImpl(variants[v]);
      var p := Clone(variants[that]);
      variants := variants[v := p];
      Refilled(old(Values(Snapshot())), h, v, p, impls[p].cvptr.value, x);
      RemoveThenUpdate(old(variants), v, p);
      assert Snapshot() == With(h, v, p, impls[p].cvptr.value, x);
      assert that in old(Values(Snapshot())) && old(Values(Snapshot()))[that] == x;
    }

    /** `operator=`. */
    method AssignVariant(v: nat, that: nat)
      requires Owned(Snapshot()) && v in variants && that in variants
      modifies this
      ensures Owned(Snapshot()) && that in old(Values(Snapshot()))
      ensures Values(Snapshot()) == old(Values(Snapshot()))[v := old(Values(Snapshot()))[that]]
    {
      EveryVariantHolds(Snapshot());
      if v != that {
        ReplaceVariant(v, that);
      }
    }

    method DestroyVariant(v: nat)
      requires Owned(Snapshot()) && v in variants
      modifies this
      ensures Owned(Snapshot()) && Values(Snapshot()) == old(Values(Snapshot())) - {v}
    {
      OwnersApart(Snapshot(), v);
      OwnedWithout(Snapshot(), v);
      ValuesWithout(Snapshot(), v);
      ghost var h := Without(Snapshot(), v);
      DeleteImpl(variants[v]);
      variants := variants - {v};
      assert Snapshot() == h;
    }

    /** A client writing through `get<T>()`, which throws when the type is not the content's. */
    method WriteVariant(v: nat, x: Content) returns (ok: bool)
      requires Owned(Snapshot()) && v in variants
      modifies this
      ensures Owned(Snapshot()) && v in old(Values(Snapshot()))
      ensures var held := old(Values(Snapshot()))[v];
        ok == ((held.Int? && x.Int?) || (held.Double? && x.Double?) || (held.Bool? && x.Bool?) ||
               (held.Text? && x.Text?) || (held.List? && x.List?) || (held.Map? && x.Map?))
      ensures Values(Snapshot()) == if ok then old(Values(Snapshot()))[v := x] else old(Values(Snapshot()))
    {
      EveryVariantHolds(Snapshot());
      var c := impls[variants[v]].cvptr.value;
      ok := SameType(contents[c], x);
      if ok {
        OwnersApart(Snapshot(), v);
        OwnedWritten(Snapshot(), v, x);
        ValuesWritten(Snapshot(), v, x);
        contents := contents[c := x];
      }
    }

    method Perform(op: Op)
      requires Owned(Snapshot()) && InScope(Values(Snapshot()).Keys, op)
      modifies this
      ensures Owned(Snapshot()) && Values(Snapshot()) == Meaning(old(Values(Snapshot())), op)
    {
      EveryVariantHolds(Snapshot());
      match op
      case Construct(v, c) => ConstructVariant(v, c);
      case Copy(v, src) => CopyVariant(v, src);
      case Assign(v, src) => AssignVariant(v, src);
      case Destroy(v) => DestroyVariant(v);
      case Write(v, c) => var _ := WriteVariant(v, c);
    }

    /** Any scoped sequence of operations runs without a memory fault and computes what values
        would; in particular a Variant it does not touch still holds what it held. */
    method PerformAll(ops: seq<Op>)
      requires Owned(Snapshot()) && WellScoped(Values(Snapshot()), ops)
      modifies this
      ensures Owned(Snapshot()) && Values(Snapshot()) == Replay(old(Values(Snapshot())), ops)
      ensures forall v :: v in old(variants) && Spares(ops, v) ==>
        v in variants && Holds(Snapshot(), v) == old(Holds(Snapshot(), v))
    {
      ghost var start := Values(Snapshot());
      EveryVariantHolds(Snapshot());
      assert ops[0..] == ops;
      for i := 0 to |ops|
        invariant Owned(Snapshot())
        invariant WellScoped(Values(Snapshot()), ops[i..])
        invariant Replay(Values(Snapshot()), ops[i..]) == Replay(start, ops)
      {
        ReplayOne(Values(Snapshot()), ops, i);
        Perform(ops[i]);
      }
      assert ops[|ops|..] == [];
      EveryVariantHolds(Snapshot());
      forall v | v in start && Spares(ops, v) ensures v in variants && Holds(Snapshot(), v) == Some(start[v]) {
        SparedKeepsValue(start, ops, v);
        assert v in Values(Snapshot());
      }
    }

    /** What the live Variants hold, read through their pointers. */
    method Contents() returns (values: map<nat, Content>)
      requires Owned(Snapshot())
      ensures values == Values(Snapshot())
    {
      values := Values(Heap(variants, impls, contents));
    }
  }

  /** Any scoped sequence of operations runs without a memory fault, computes what values
      would, and holds exactly one impl and one content cell per Variant left alive. */
  method RunOperations(ops: seq<Op>) returns (values: map<nat, Content>, implCells: nat, contentCells: nat)
    requires WellScoped(map[], ops)
    ensures values == Replay(map[], ops)
    ensures implCells == contentCells == |values|
  {
    var m := new Memory();
    m.PerformAll(ops);
    values := m.Contents();
    implCells, contentCells := |m.impls|, |m.contents|;
    NothingLeaks(m.Snapshot());
    EveryVariantHolds(m.Snapshot());
    assert |values| == |values.Keys| == |m.variants.Keys| == |m.variants|;
  }

  /** A copy and its original are independent: whatever happened before, and whatever is done
      after to one of them and to all the rest, the other keeps the value both had. */
  method CopyAmid(before: seq<Op>, a: nat, b: nat, after: seq<Op>)
    returns (middle: map<nat, Content>, final: map<nat, Content>)
    requires WellScoped(map[], before) && InScope(Replay(map[], before).Keys, Copy(b, a))
    requires WellScoped(Meaning(Replay(map[], before), Copy(b, a)), after)
    ensures a in middle && b in middle && middle[a] == middle[b]
    ensures Spares(after, a) ==> a in final && final[a] == middle[a]
    ensures Spares(after, b) ==> b in final && final[b] == middle[b]
    ensures middle == Replay(map[], before)[b := middle[a]] && final == Replay(middle, after)
  {
    var m := new Memory();
    m.PerformAll(before);
    m.CopyVariant(b, a);
    middle := m.Contents();
    m.PerformAll(after);
    final := m.Contents();
    if Spares(after, a) {
      SparedKeepsValue(middle, after, a);
    }
    if Spares(after, b) {
      SparedKeepsValue(middle, after, b);
    }
  }
}
