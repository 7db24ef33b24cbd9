/** Every lookup of alias sets records subsets in an order under which the table stays exactly reachability. */
module AliasHistory {
  import opened Options
  import opened AliasSets
  import opened AliasTypes
  import opened AliasClasses
  import opened AliasNesting

  // ----- Histories -----

  /** `h'` is what a disciplined list of events makes of `h`. */
  ghost predicate Follows(h: History, h': History) {
    exists es :: Disciplined(h, es) && ApplyAll(h, es) == h'
  }

  /** A type stored with alias set `a` has a recorded component with alias set `b`. */
  ghost predicate HasPart(pg: Program, memo: map<TypeId, nat>, a: nat, b: nat)
    requires pg.Valid()
  {
    exists t, g ::
      && t in memo && pg.Has(t) && pg.Owner(t) && memo[t] == a
      && Component(pg, t, g) && pg.Has(g) && Resolve(pg, memo, g) == Some(b)
  }

  /** A pointer type is stored with alias set `s`. */
  ghost predicate OfPointer(pg: Program, memo: map<TypeId, nat>, s: nat)
    requires pg.Valid()
  {
    exists t :: t in memo && pg.Has(t) && pg.types[t].shape.IsPointer() && memo[t] == s
  }

  /** Every edge goes from a type to a component of it, and every pointer set is that of a pointer type. */
  ghost predicate Typed(pg: Program, h: History, memo: map<TypeId, nat>)
    requires pg.Valid()
  {
    && (forall e :: e in h.edges ==> HasPart(pg, memo, e.0, e.1))
    && (forall s :: s in h.pointers ==> OfPointer(pg, memo, s))
  }

  /** The history that led to a state: its table is the one of the state and exactly reachability, its edges and pointer sets are
      those of types, and types share alias sets exactly if they are of one class. */
  ghost predicate Tracks(pg: Program, h: History, st: State)
    requires pg.Valid()
  {
    && h.sets == st.sets && Closed(h.sets, h.edges, h.pointers) && Typed(pg, h, st.memo)
    && (Rebuilt(pg) ==> ClassesOk(pg, st.memo))
  }

  lemma TypedStays(pg: Program, h: History, m: map<TypeId, nat>, n: map<TypeId, nat>)
    requires pg.Valid() && Typed(pg, h, m) && Extended(m, n) && KeysOk(pg, n)
    ensures Typed(pg, h, n)
  {
    hide Resolve, Component;
    forall e | e in h.edges ensures HasPart(pg, n, e.0, e.1) {
      assert HasPart(pg, m, e.0, e.1);
      var t, g :| && t in m && pg.Has(t) && pg.Owner(t) && m[t] == e.0
                  && Component(pg, t, g) && pg.Has(g) && Resolve(pg, m, g) == Some(e.1);
      ResolveStable(pg, m, n, g);
    }
    forall s | s in h.pointers ensures OfPointer(pg, n, s) {
      assert OfPointer(pg, m, s);
    }
  }

  /** Storing one more alias set changes nothing about the history. */
  lemma StoreTraced(pg: Program, h: History, st: State, open: set<TypeId>, t: TypeId, s: nat)
    requires pg.Valid() && Tracks(pg, h, st) && Inv(pg, st, open) && pg.Has(t) && pg.Memoizable(t)
    requires t in st.memo ==> st.memo[t] == s
    requires Rebuilt(pg) ==> ClassStored(pg, st.memo, ClassOfSettled(pg, t), s)
    ensures Tracks(pg, h, st.(memo := st.memo[t := s]))
  {
    hide Closed, Typed, ClassesOk, ClassStored, Rebuilt, ClassOfSettled;
    InvKeys(pg, st, open);
    TypedStays(pg, h, st.memo, st.memo[t := s]);
    if t in st.memo {
      assert st.memo[t := s] == st.memo;
    } else if Rebuilt(pg) {
      if ClassOfSettled(pg, t).Some? { SettledIsRepresentative(pg, t); }
      StoreKeepsClasses(pg, st.memo, t, s);
    }
  }

  lemma TracksClass(pg: Program, h: History, st: State, t: TypeId)
    requires pg.Valid() && pg.Has(t) && Tracks(pg, h, st) && Rebuilt(pg) && Resolve(pg, st.memo, t).Some?
    ensures ClassStored(pg, st.memo, Class(pg, t), Resolve(pg, st.memo, t).value)
  {
    ResolveClass(pg, st.memo, t);
  }

  lemma FollowsSelf(h: History)
    ensures Follows(h, h)
  {
    assert Disciplined(h, []) && ApplyAll(h, []) == h;
  }

  lemma FollowsOne(h: History, e: Event)
    requires Allowed(h, e)
    ensures Follows(h, Apply(h, e))
  {
    hide Apply, Allowed;
    assert [e][1..] == [];
    assert ApplyAll(Apply(h, e), []) == Apply(h, e);
    assert Disciplined(h, [e]) && ApplyAll(h, [e]) == Apply(h, e);
  }

  lemma {:induction false} Appended(h: History, es: seq<Event>, fs: seq<Event>)
    requires Disciplined(h, es) && Disciplined(ApplyAll(h, es), fs)
    ensures Disciplined(h, es + fs) && ApplyAll(h, es + fs) == ApplyAll(ApplyAll(h, es), fs)
    decreases |es|
  {
    if es == [] {
      assert es + fs == fs;
    } else {
      assert (es + fs)[1..] == es[1..] + fs;
      Appended(Apply(h, es[0]), es[1..], fs);
    }
  }

  lemma FollowsTrans(a: History, b: History, c: History)
    requires Follows(a, b) && Follows(b, c)
    ensures Follows(a, c)
  {
    var es :| Disciplined(a, es) && ApplyAll(a, es) == b;
    var fs :| Disciplined(b, fs) && ApplyAll(b, fs) == c;
    Appended(a, es, fs);
  }

  lemma FollowsClosed(h: History, h': History)
    requires Closed(h.sets, h.edges, h.pointers) && Follows(h, h')
    ensures Closed(h'.sets, h'.edges, h'.pointers)
  {
    var es :| Disciplined(h, es) && ApplyAll(h, es) == h';
    HistoryClosed(h, es);
  }

  /** A set that is in no children is nobody's subset. */
  lemma InNoChildren(h: History, s: nat)
    requires Closed(h.sets, h.edges, h.pointers) && s != 0 && forall x :: s !in EntryOf(h.sets, x).children
    ensures NotYetSubset(h.edges, s)
  {
    forall e | e in h.edges ensures e.1 != s {
      EdgeReaches(h.edges, e.0, e.1);
      assert ClosedAt(h.sets, h.edges, h.pointers, e.0);
    }
  }

  // ----- The elementary steps -----

  lemma FreshTraced(pg: Program, h: History, st: State, open: set<TypeId>, t: TypeId) returns (h': History)
    requires pg.Valid() && Tracks(pg, h, st) && Inv(pg, st, open) && pg.Has(t) && pg.Memoizable(t) && t !in st.memo
    requires Rebuilt(pg) ==> IsRepresentative(pg, t)
    ensures Follows(h, h') && Tracks(pg, h', Fresh(st, t).0)
  {
    hide Closed, Typed, ClassesOk, IsRepresentative, Rebuilt;
    h' := Apply(h, New);
    FollowsOne(h, New);
    FollowsClosed(h, h');
    TypedSame(pg, h, h', st.memo);
    InvKeys(pg, st, open);
    TypedStays(pg, h', st.memo, Fresh(st, t).0.memo);
    FreshUnused(pg, st, open, NewSet(st.sets).0, NewSet(st.sets).1);
    if Rebuilt(pg) { FreshKeepsClasses(pg, st.memo, t, NewSet(st.sets).1); }
  }

  lemma TypedSame(pg: Program, h: History, h': History, memo: map<TypeId, nat>)
    requires pg.Valid() && Typed(pg, h, memo) && h'.edges == h.edges && h'.pointers == h.pointers
    ensures Typed(pg, h', memo)
  {
  }

  lemma MarkTraced(pg: Program, h: History, st: State, s: nat) returns (h': History)
    requires pg.Valid() && Tracks(pg, h, st) && OfPointer(pg, st.memo, s)
    requires 0 < s < |st.sets| && forall x :: s !in EntryOf(st.sets, x).children
    ensures Follows(h, h') && Tracks(pg, h', MarkSet(st, s))
  {
    hide HasPart, OfPointer;
    InNoChildren(h, s);
    h' := Apply(h, Mark(s));
    FollowsOne(h, Mark(s));
    FollowsClosed(h, h');
  }

  /** Recording the alias set of component `g` of the open type `t`. */
  lemma RecordTraced(pg: Program, h: History, st: State, open: set<TypeId>, t: TypeId, g: TypeId, v: nat) returns (h': History)
    requires pg.Valid() && Tracks(pg, h, st) && Inv(pg, st, open) && t in open && t in st.memo
    requires pg.Has(t) && Component(pg, t, g) && pg.Has(g) && Resolve(pg, st.memo, g) == Some(v)
    ensures Follows(h, h') && Tracks(pg, h', RecordIn(st, st.memo[t], v))
  {
    hide Inv, Resolve, Component, HasPart, OfPointer, Closed, ClassesOk, Rebuilt;
    var sup := st.memo[t];
    OpenFacts(pg, st, open, t);
    PartOf(pg, st.memo, t, g, v);
    InNoChildren(h, sup);
    h' := Apply(h, Record(sup, v));
    FollowsOne(h, Record(sup, v));
    FollowsClosed(h, h');
  }

  lemma OpenFacts(pg: Program, st: State, open: set<TypeId>, t: TypeId)
    requires pg.Valid() && Inv(pg, st, open) && t in open && t in st.memo
    ensures pg.Has(t) && pg.Owner(t) && 0 < st.memo[t] < |st.sets| && forall x :: st.memo[t] !in EntryOf(st.sets, x).children
  {
    assert StoredOk(pg, st, t);
  }

  lemma PartOf(pg: Program, memo: map<TypeId, nat>, t: TypeId, g: TypeId, v: nat)
    requires pg.Valid() && t in memo && pg.Has(t) && pg.Owner(t) && Component(pg, t, g) && pg.Has(g)
    requires Resolve(pg, memo, g) == Some(v)
    ensures HasPart(pg, memo, memo[t], v)
  {
    hide Resolve, Component;
  }

  // ----- Lookups -----

  lemma {:induction false} GetTraced(pg: Program, st: State, open: set<TypeId>, t: TypeId, h: History) returns (h': History)
    requires pg.Valid() && pg.Has(t) && Inv(pg, st, open) && Above(pg, open, t) && Tracks(pg, h, st)
    ensures Follows(h, h') && Tracks(pg, h', GetAliasSet(pg, st, t).0)
    decreases pg.rank[t], 2, 0
  {
    hide Inv, Follows, Tracks;
    assert pg.Ranked(t);
    var ty := pg.types[t];
    h' := h;
    FollowsSelf(h);
    if !pg.Typeless(t) {
      if ty.structural {
        if ty.hook != Default {
          h' := HookTraced(pg, st, open, t, h);
        } else if !ty.shape.CanonicalUsed() {
          h' := SettledTraced(pg, st, open, t, h);
        }
      } else {
        assert pg.CanonicalOk(t);
        h' := SettledTraced(pg, st, open, ty.canonical, h);
      }
    }
  }

  lemma {:induction false} HookTraced(pg: Program, st: State, open: set<TypeId>, t: TypeId, h: History) returns (h': History)
    requires pg.Valid() && pg.Has(t) && Inv(pg, st, open) && Above(pg, open, t) && Tracks(pg, h, st)
    ensures Follows(h, h') && Tracks(pg, h', FromHook(pg, st, t).0)
    decreases pg.rank[t], 0, 0
  {
    hide Inv, Follows, Tracks;
    assert pg.Ranked(t);
    h' := h;
    FollowsSelf(h);
    if pg.types[t].hook.Like? {
      h' := GetTraced(pg, st, open, pg.types[t].hook.ty, h);
    }
  }

  lemma {:induction false} SettledTraced(pg: Program, st: State, open: set<TypeId>, t: TypeId, h: History) returns (h': History)
    requires pg.Valid() && pg.Has(t) && Inv(pg, st, open) && Above(pg, open, t) && Tracks(pg, h, st)
    ensures Follows(h, h') && Tracks(pg, h', GetSettled(pg, st, t).0)
    decreases pg.rank[t], 1, 0
  {
    hide Inv, Follows, Tracks;
    assert pg.Ranked(t);
    var ty := pg.types[t];
    h' := h;
    FollowsSelf(h);
    if t !in st.memo {
      if !ty.complete {
        if ty.shape.ArrayOf? { h' := GetTraced(pg, st, open, ty.shape.elem, h); }
      } else if ty.hook != Default {
        h' := HookTraced(pg, st, open, t, h);
      } else {
        match ty.shape {
          case FunctionType => StoreTraced(pg, h, st, open, t, 0);
          case VectorOf(e) => h' := ShareTraced(pg, st, open, t, e, h);
          case ArrayOf(e, nonaliased) =>
            if !nonaliased || ty.structural {
              h' := ShareTraced(pg, st, open, t, e, h);
            } else {
              h' := FreshTraced(pg, h, st, open, t);
            }
          case Pointer(rep) => h' := PointerTraced(pg, st, open, t, h);
          case VoidPtr => h' := FreshMarkTraced(pg, st, open, t, h);
          case Scalar => h' := FreshTraced(pg, h, st, open, t);
          case ComplexOf(e) => h' := ComplexTraced(pg, st, open, t, h);
          case RecordOf(fields) =>
            if pg.Typeless(t) { h' := FreshTraced(pg, h, st, open, t); } else { h' := RecordOfTraced(pg, st, open, t, h); }
        }
      }
    }
  }

  /** An array or vector takes the alias set of its element. */
  lemma {:induction false} ShareTraced(pg: Program, st: State, open: set<TypeId>, t: TypeId, e: TypeId, h: History)
    returns (h': History)
    requires pg.Valid() && pg.Has(t) && pg.Memoizable(t) && Inv(pg, st, open) && Above(pg, open, t) && t !in st.memo
    requires pg.Below(e, t) && SharedElement(pg, t) == Some(e) && Tracks(pg, h, st)
    ensures Follows(h, h') && Tracks(pg, h', Share(GetAliasSet(pg, st, e), t).0)
    decreases pg.rank[t], 0, 0
  {
    hide Inv, Follows, Tracks, Resolve;
    h' := GetTraced(pg, st, open, e, h);
    GetKeeps(pg, st, open, e);
    var (st', s) := GetAliasSet(pg, st, e);
    NotYetStored(pg, st, st', e, t);
    if Rebuilt(pg) { TracksClass(pg, h', st', e); }
    StoreTraced(pg, h', st', open, t, s);
  }

  lemma NotYetStored(pg: Program, st: State, st': State, e: TypeId, t: TypeId)
    requires pg.Has(t) && |pg.rank| == |pg.types| && pg.Below(e, t) && t !in st.memo
    requires forall k :: k in st'.memo && k !in st.memo ==> pg.Has(k) && pg.rank[k] <= pg.rank[e]
    ensures t !in st'.memo
  {
  }

  /** A new alias set that is marked as that of a pointer. */
  lemma FreshMarkTraced(pg: Program, st: State, open: set<TypeId>, t: TypeId, h: History) returns (h': History)
    requires pg.Valid() && Inv(pg, st, open) && Tracks(pg, h, st)
    requires pg.Has(t) && pg.Memoizable(t) && t !in st.memo && pg.types[t].shape.IsPointer()
    requires Rebuilt(pg) ==> IsRepresentative(pg, t)
    ensures var (st', s) := Fresh(st, t);
            Follows(h, h') && Tracks(pg, h', MarkSet(st', s))
  {
    hide Inv, Follows, Tracks, IsRepresentative, Rebuilt;
    var (st', s) := Fresh(st, t);
    NewIsUnused(pg, st, open, t);
    var mid := FreshTraced(pg, h, st, open, t);
    assert st'.memo[t] == s && OfPointer(pg, st'.memo, s);
    h' := MarkTraced(pg, mid, st', s);
    FollowsTrans(h, mid, h');
  }

  lemma NewIsUnused(pg: Program, st: State, open: set<TypeId>, t: TypeId)
    requires pg.Valid() && Inv(pg, st, open)
    ensures var (st', s) := Fresh(st, t);
            0 < s < |st'.sets| && forall x :: s !in EntryOf(st'.sets, x).children
  {
    FreshTable(st, t);
    FreshUnused(pg, st, open, NewSet(st.sets).0, NewSet(st.sets).1);
  }

  lemma {:induction false} PointerTraced(pg: Program, st: State, open: set<TypeId>, t: TypeId, h: History) returns (h': History)
    requires pg.Valid() && pg.Has(t) && pg.Memoizable(t) && Inv(pg, st, open) && Above(pg, open, t) && t !in st.memo
    requires pg.types[t].shape.Pointer? && Tracks(pg, h, st)
    ensures Follows(h, h') && Tracks(pg, h', GetPointer(pg, st, t).0)
    decreases pg.rank[t], 0, 1
  {
    hide Inv, Follows, Tracks, EntryOf, Resolve;
    assert pg.Ranked(t);
    var rep := pg.types[t].shape.rep;
    if rep == None {
      h' := GetTraced(pg, st, open, pg.voidPtr, h);
      GetKeeps(pg, st, open, pg.voidPtr);
      var (st', s) := GetAliasSet(pg, st, pg.voidPtr);
      VoidPtrStored(pg, st', open, s);
      NotYetStored(pg, st, st', pg.voidPtr, t);
      StorePointer(pg, st', open, t, pg.voidPtr, s);
      StoreTraced(pg, h', st', open, t, s);
    } else if rep.value in st.memo {
      h' := h;
      FollowsSelf(h);
      StorePointer(pg, st, open, t, rep.value, st.memo[rep.value]);
      StoreTraced(pg, h', st, open, t, st.memo[rep.value]);
    } else {
      h' := FreshMarkTraced(pg, st, open, rep.value, h);
      PointerFreshKeeps(pg, st, open, rep.value);
      var (st', s) := Fresh(st, rep.value);
      StoreTraced(pg, h', MarkSet(st', s), open, t, s);
      assert MarkSet(st', s).(memo := st'.memo[t := s]) == MarkSet(st'.(memo := st'.memo[t := s]), s);
    }
  }

  lemma {:induction false} ComplexTraced(pg: Program, st: State, open: set<TypeId>, t: TypeId, h: History) returns (h': History)
    requires pg.Valid() && pg.Has(t) && pg.Memoizable(t) && Inv(pg, st, open) && Above(pg, open, t) && t !in st.memo
    requires pg.types[t].shape.ComplexOf? && Tracks(pg, h, st)
    ensures Follows(h, h') && Tracks(pg, h', GetSettled(pg, st, t).0)
    decreases pg.rank[t], 0, 1
  {
    hide Inv, Follows, Tracks, Resolve, Grows;
    assert pg.Ranked(t);
    FreshKeeps(pg, st, open, t);
    var st' := Fresh(st, t).0;
    var mid := FreshTraced(pg, h, st, open, t);
    h' := ComponentTraced(pg, st', open + {t}, t, pg.types[t].shape.elem, mid);
    FollowsTrans(h, mid, h');
  }

  /** Looking up component `g` of the open type `t` and recording what was found. */
  lemma {:induction false} ComponentTraced(pg: Program, st: State, open: set<TypeId>, t: TypeId, g: TypeId, h: History)
    returns (h': History)
    requires pg.Valid() && pg.Has(t) && Inv(pg, st, open) && t in open && t in st.memo && pg.Below(g, t)
    requires Component(pg, t, g) && Tracks(pg, h, st)
    requires forall o :: o in open ==> pg.Has(o) && pg.rank[o] >= pg.rank[t]
    ensures var (st', v) := GetAliasSet(pg, st, g);
            Follows(h, h') && Tracks(pg, h', RecordIn(st', st.memo[t], v))
    decreases pg.rank[g], 3, 0
  {
    hide Inv, Follows, Tracks, Resolve, Component;
    var mid := GetTraced(pg, st, open, g, h);
    GetKeeps(pg, st, open, g);
    var (st', v) := GetAliasSet(pg, st, g);
    h' := RecordTraced(pg, mid, st', open, t, g, v);
    FollowsTrans(h, mid, h');
  }

  lemma {:induction false} RecordOfTraced(pg: Program, st: State, open: set<TypeId>, t: TypeId, h: History) returns (h': History)
    requires pg.Valid() && pg.Has(t) && pg.Memoizable(t) && Inv(pg, st, open) && Above(pg, open, t) && t !in st.memo
    requires pg.types[t].shape.RecordOf? && !pg.Typeless(t) && Tracks(pg, h, st)
    ensures Follows(h, h') && Tracks(pg, h', GetSettled(pg, st, t).0)
    decreases pg.rank[t], 0, |pg.types[t].shape.fields| + 1
  {
    hide Inv, Follows, Tracks, Grows;
    assert pg.Ranked(t);
    FreshKeeps(pg, st, open, t);
    var st' := Fresh(st, t).0;
    var mid := FreshTraced(pg, h, st, open, t);
    h' := FieldsTraced(pg, st', open + {t}, t, |pg.types[t].shape.fields|, mid);
    FollowsTrans(h, mid, h');
  }

  lemma {:induction false} FieldsTraced(pg: Program, st: State, open: set<TypeId>, t: TypeId, n: nat, h: History)
    returns (h': History)
    requires pg.Valid() && pg.Has(t) && Inv(pg, st, open) && t in open && t in st.memo && Tracks(pg, h, st)
    requires pg.types[t].shape.RecordOf? && n <= |pg.types[t].shape.fields|
    requires forall o :: o in open ==> pg.Has(o) && pg.rank[o] >= pg.rank[t]
    ensures Follows(h, h') && Tracks(pg, h', RecordFields(pg, st, t, st.memo[t], n))
    decreases pg.rank[t], 0, n
  {
    hide Inv, Follows, Tracks, FieldsCovered;
    if n == 0 {
      h' := h;
      FollowsSelf(h);
    } else {
      assert pg.Ranked(t);
      FieldsKeep(pg, st, open, t, n - 1);
      h' := FieldsTraced(pg, st, open, t, n - 1, h);
      var st' := RecordFields(pg, st, t, st.memo[t], n - 1);
      var f := pg.types[t].shape.fields[n - 1];
      if f.addressable {
        StrippedRank(pg, f.ty);
        var mid := h';
        assert Component(pg, t, RecordedType(pg, f.ty));
        h' := ComponentTraced(pg, st', open, t, RecordedType(pg, f.ty), mid);
        FollowsTrans(h, mid, h');
      }
    }
  }

  // ----- Main results -----

  lemma {:induction false} AllTraced(pg: Program, st: State, ts: seq<TypeId>, h: History) returns (h': History)
    requires pg.Valid() && (forall i :: 0 <= i < |ts| ==> pg.Has(ts[i])) && Inv(pg, st, {}) && Tracks(pg, h, st)
    ensures Follows(h, h') && Tracks(pg, h', GetAll(pg, st, ts))
    decreases |ts|
  {
    hide Inv, Follows, Tracks, Resolve;
    if ts == [] {
      h' := h;
      FollowsSelf(h);
    } else {
      var mid := GetTraced(pg, st, {}, ts[0], h);
      GetKeeps(pg, st, {}, ts[0]);
      h' := AllTraced(pg, GetAliasSet(pg, st, ts[0]).0, ts[1..], mid);
      FollowsTrans(h, mid, h');
    }
  }

  /** The edges the types make: from the alias set of every stored owner to those of its components. */
  ghost function Parts(pg: Program, memo: map<TypeId, nat>): Edges
    requires pg.Valid()
  {
    set t, g | t in memo && pg.Has(t) && 0 <= g < |pg.types| && pg.Owner(t) && Component(pg, t, g) && Resolve(pg, memo, g).Some?
      :: (memo[t], Resolve(pg, memo, g).value)
  }

  ghost function Pointers(pg: Program, memo: map<TypeId, nat>): set<nat>
    requires pg.Valid()
  {
    set t | t in memo && pg.Has(t) && pg.types[t].shape.IsPointer() :: memo[t]
  }

  lemma InParts(pg: Program, memo: map<TypeId, nat>, a: nat, b: nat)
    requires pg.Valid()
    ensures (a, b) in Parts(pg, memo) <==> HasPart(pg, memo, a, b)
  {
    hide Resolve, Component;
    if HasPart(pg, memo, a, b) {
      var t, g :| && t in memo && pg.Has(t) && pg.Owner(t) && memo[t] == a
                  && Component(pg, t, g) && pg.Has(g) && Resolve(pg, memo, g) == Some(b);
      assert (memo[t], Resolve(pg, memo, g).value) in Parts(pg, memo);
    }
  }

  /** What a type has as a part is recorded, in whatever way, below it. */
  lemma PartReached(pg: Program, h: History, st: State, a: nat, b: nat)
    requires pg.Valid() && Inv(pg, st, {}) && Tracks(pg, h, st) && HasPart(pg, st.memo, a, b)
    ensures Reaches(h.edges, a, b) && 0 < a < |st.sets|
  {
    hide Resolve, Component, Closed, Typed;
    var t, g :| && t in st.memo && pg.Has(t) && pg.Owner(t) && st.memo[t] == a
                && Component(pg, t, g) && pg.Has(g) && Resolve(pg, st.memo, g) == Some(b);
    assert StoredOk(pg, st, t) && ComponentsRecorded(pg, st, t);
    assert a != b by { PartIsOther(pg, st, t, g); }
    ChildReached(h, a, b);
  }

  lemma ChildReached(h: History, a: nat, b: nat)
    requires Closed(h.sets, h.edges, h.pointers) && a != b && Covered(h.sets, a, b)
    ensures Reaches(h.edges, a, b)
  {
    assert ClosedAt(h.sets, h.edges, h.pointers, a);
  }

  /** A component does not have the alias set of the type it is in. */
  lemma PartIsOther(pg: Program, st: State, t: TypeId, g: TypeId)
    requires pg.Valid() && Inv(pg, st, {}) && t in st.memo && pg.Has(t) && pg.Owner(t) && Component(pg, t, g) && pg.Has(g)
    ensures Resolve(pg, st.memo, g) != Some(st.memo[t])
  {
    hide Resolve;
    ComponentBelow(pg, t, g);
    InvKeys(pg, st, {});
    assert StoredOk(pg, st, t);
    if Resolve(pg, st.memo, g) == Some(st.memo[t]) {
      ResolveRank(pg, st, g, t);
    }
  }

  lemma ComponentBelow(pg: Program, t: TypeId, g: TypeId)
    requires pg.Valid() && pg.Has(t) && Component(pg, t, g) && pg.Has(g)
    ensures pg.rank[g] < pg.rank[t]
  {
    assert pg.Ranked(t);
    if pg.types[t].shape.RecordOf? {
      var fs := pg.types[t].shape.fields;
      var i :| 0 <= i < |fs| && pg.Has(fs[i].ty) && fs[i].addressable && g == RecordedType(pg, fs[i].ty);
      StrippedRank(pg, fs[i].ty);
    }
  }

  /** If every edge of `g` can be followed in `k`, so can every path. */
  lemma {:induction false} PathFollowed(g: Edges, k: Edges, p: seq<nat>)
    requires IsPath(g, p) && forall e :: e in g ==> Reaches(k, e.0, e.1)
    ensures Reaches(k, p[0], p[|p| - 1])
    decreases |p|
  {
    hide Reaches;
    assert (p[0], p[0 + 1]) in g;
    if |p| == 2 {
    } else {
      var q := p[1..];
      forall i | 0 <= i < |q| - 1 ensures (q[i], q[i + 1]) in g {
        assert (p[i + 1], p[i + 1 + 1]) in g;
      }
      PathFollowed(g, k, q);
      ReachesTransitive(k, p[0], p[1], p[|p| - 1]);
    }
  }

  lemma ReachesFollowed(g: Edges, k: Edges, a: nat, b: nat)
    requires Reaches(g, a, b) && forall e :: e in g ==> Reaches(k, e.0, e.1)
    ensures Reaches(k, a, b)
  {
    var p :| IsPath(g, p) && p[0] == a && p[|p| - 1] == b;
    PathFollowed(g, k, p);
  }

  /** The closure over one set of edges is that over any other that leads to the same places. */
  lemma ClosedOver(t: Sets, g: Edges, k: Edges, pointers: set<nat>)
    requires Closed(t, g, pointers) && (forall e :: e in k ==> 0 < e.0 < |t|)
    requires (forall e :: e in g ==> Reaches(k, e.0, e.1)) && (forall e :: e in k ==> Reaches(g, e.0, e.1))
    ensures Closed(t, k, pointers)
  {
    hide Reaches;
    forall a, b ensures Reaches(g, a, b) <==> Reaches(k, a, b) {
      if Reaches(g, a, b) { ReachesFollowed(g, k, a, b); }
      if Reaches(k, a, b) { ReachesFollowed(k, g, a, b); }
    }
    forall s ensures ClosedAt(t, k, pointers, s) {
      assert ClosedAt(t, g, pointers, s);
    }
  }

  lemma PointersTracked(pg: Program, h: History, st: State)
    requires pg.Valid() && Inv(pg, st, {}) && Tracks(pg, h, st)
    ensures h.pointers == Pointers(pg, st.memo)
  {
    forall t | t in st.memo && pg.Has(t) && pg.types[t].shape.IsPointer() ensures st.memo[t] in h.pointers {
      assert StoredOk(pg, st, t);
      assert ClosedAt(h.sets, h.edges, h.pointers, st.memo[t]);
    }
    forall s | s in h.pointers ensures s in Pointers(pg, st.memo) {
      assert OfPointer(pg, st.memo, s);
    }
  }

  lemma TrackedIsTyped(pg: Program, h: History, st: State)
    requires pg.Valid() && Inv(pg, st, {}) && Tracks(pg, h, st)
    ensures Closed(st.sets, Parts(pg, st.memo), Pointers(pg, st.memo))
  {
    hide Reaches, HasPart, Parts, Pointers, Inv;
    PointersTracked(pg, h, st);
    var k := Parts(pg, st.memo);
    forall e | e in h.edges ensures Reaches(k, e.0, e.1) {
      InParts(pg, st.memo, e.0, e.1);
      EdgeReaches(k, e.0, e.1);
    }
    forall e | e in k ensures Reaches(h.edges, e.0, e.1) && 0 < e.0 < |st.sets| {
      InParts(pg, st.memo, e.0, e.1);
      PartReached(pg, h, st, e.0, e.1);
    }
    ClosedOver(st.sets, h.edges, k, h.pointers);
  }

  /** What holds after lookups: the invariant, the table as reachability over components, and one alias set for each class. */
  ghost predicate Explained(pg: Program, st: State)
    requires pg.Valid()
  {
    && Inv(pg, st, {}) && Closed(st.sets, Parts(pg, st.memo), Pointers(pg, st.memo))
    && (Rebuilt(pg) ==> ClassesOk(pg, st.memo))
  }

  lemma LookupsExplained(pg: Program, ts: seq<TypeId>)
    requires pg.Valid() && forall i :: 0 <= i < |ts| ==> pg.Has(ts[i])
    ensures Explained(pg, GetAll(pg, START, ts))
  {
    hide Inv, Closed, Follows, GetAll, Rebuilt;
    StartOk(pg);
    ClosedInitially();
    assert Typed(pg, NOTHING, START.memo) && ClassesOk(pg, START.memo);
    var h := AllTraced(pg, START, ts, NOTHING);
    LookupsKeep(pg, START, ts);
    TrackedIsTyped(pg, h, GetAll(pg, START, ts));
  }

  /** Whatever types are looked up, and in whatever order, the children, zero and pointer flags in the table are exactly
      reachability over the components of the types that have been given alias sets. */
  lemma LookupsAreReachability(pg: Program, ts: seq<TypeId>)
    requires pg.Valid() && forall i :: 0 <= i < |ts| ==> pg.Has(ts[i])
    ensures var st := GetAll(pg, START, ts);
            Closed(st.sets, Parts(pg, st.memo), Pointers(pg, st.memo))
  {
    LookupsExplained(pg, ts);
  }
}
