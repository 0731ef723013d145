/**
 What a family is generic in: its types' uses, iterated to a fixed point.
 */
module DeclarationGenerics {
  import opened DeclarationModel
  import opened DeclarationUses
  import opened DeclarationUseChains

  /** There is one least solution at most. */
  lemma {:induction false} LeastIsUnique(w: World, f: string, a: Table, b: Table)
    requires Solves(w, f, a) && Least(w, f, a) && Solves(w, f, b) && Least(w, f, b)
    ensures a == b
  {
    assert Below(a, b) && Below(b, a) && a.Keys == b.Keys;
    BelowBoth(a, b);
  }

  lemma BelowBoth(a: Table, b: Table)
    requires Below(a, b) && Below(b, a) && a.Keys == b.Keys
    ensures a == b
  {
    forall t | t in a ensures a[t] == b[t] {
      assert a[t] <= At(b, t) && b[t] <= At(a, t);
    }
  }

  // Replacing one type's uses by what its equation yields.
  lemma {:induction false} ReplacingStaysLeast(w: World, f: string, u: Table, t: string)
    requires t in u && Supported(w, f, u) && Least(w, f, u)
    ensures var v := u[t := TypeUses(w, f, u, t)]; Supported(w, f, v) && Least(w, f, v) && Below(u, v)
  {
    TypeUsesGrow(w, f, u, u, t);
    StaysSupported(w, f, u, t);
    forall s: Table | Solves(w, f, s) ensures Below(u[t := TypeUses(w, f, u, t)], s) {
      StaysBelow(w, f, u, t, s);
    }
  }

  lemma {:induction false} StaysSupported(w: World, f: string, u: Table, t: string)
    requires t in u && Supported(w, f, u)
    ensures Supported(w, f, u[t := TypeUses(w, f, u, t)])
  {
    TypeUsesGrow(w, f, u, u, t);
    var v := u[t := TypeUses(w, f, u, t)];
    forall x | x in v ensures v[x] <= TypeUses(w, f, v, x) {
      if x != t { assert v[x] == u[x]; }
      StaysWithin(w, f, u, v, x);
    }
  }

  lemma StaysWithin(w: World, f: string, u: Table, v: Table, x: string)
    requires Supported(w, f, u) && Lists(w, f, v) && Below(u, v) && x in u && x in v && v[x] <= TypeUses(w, f, u, x)
    ensures v[x] <= TypeUses(w, f, v, x)
  {
    TypeUsesGrow(w, f, u, v, x);
  }

  lemma {:induction false} StaysBelow(w: World, f: string, u: Table, t: string, s: Table)
    requires t in u && Supported(w, f, u) && Below(u, s) && Solves(w, f, s)
    ensures Below(u[t := TypeUses(w, f, u, t)], s)
  {
    TypeUsesGrow(w, f, u, s, t);
  }

  lemma {:induction false} RoomShrinks(w: World, f: string, u: Table, t: string)
    requires t in u && Supported(w, f, u) && TypeUses(w, f, u, t) != u[t]
    ensures |Room(w, f, u[t := TypeUses(w, f, u, t)])| < |Room(w, f, u)|
  {
    TypeUsesGrow(w, f, u, u, t);
    var v := u[t := TypeUses(w, f, u, t)];
    var r :| r in TypeUses(w, f, u, t) && r !in u[t];
    assert r == Use(r.parameter, r.drawn);
    assert (t, r) in Room(w, f, u) && (t, r) !in Room(w, f, v);
    Smaller(Room(w, f, v), Room(w, f, u), (t, r));
  }

  lemma Smaller<T>(a: set<T>, b: set<T>, x: T)
    requires a <= b && x in b && x !in a
    ensures |a| < |b|
  {
    assert b == a + (b - a) && x in b - a;
  }

  // ---- The iteration.

  /** What a family's types are generic in: the least solution of their equations, which has
      the uses a finite chain of references leads to and no others. */
  method Generics(w: World, f: string, names: seq<string>) returns (u: Table)
    requires forall t :: t in names <==> t in Types(w, f)
    ensures Solves(w, f, u) && Least(w, f, u)
    ensures forall t :: t in Types(w, f) ==> u[t] == TypeUses(w, f, u, t)
    ensures forall t, r :: t in Types(w, f) ==> (r in u[t] <==> LedTo(w, f, t, r))
  {
    u := map t | t in Types(w, f) :: {};
    var changed := true;
    while changed
      invariant Supported(w, f, u) && Least(w, f, u) && (!changed ==> Solves(w, f, u))
      decreases |Room(w, f, u)|, changed
    {
      u, changed := Pass(w, f, names, u);
    }
    forall t, r | t in u ensures r in u[t] <==> LedTo(w, f, t, r) { UsesAreLedTo(w, f, u, t, r); }
  }

  method Pass(w: World, f: string, names: seq<string>, before: Table) returns (u: Table, changed: bool)
    requires (forall t :: t in names <==> t in Types(w, f)) && Supported(w, f, before) && Least(w, f, before)
    ensures Supported(w, f, u) && Least(w, f, u)
    ensures if changed then |Room(w, f, u)| < |Room(w, f, before)| else u == before && Solves(w, f, u)
  {
    u, changed := before, false;
    for i := 0 to |names|
      invariant Supported(w, f, u) && Least(w, f, u)
      invariant if changed then |Room(w, f, u)| < |Room(w, f, before)| else u == before && Settled(w, f, u, names, i)
    {
      assert names[i] in names;
      var more: bool;
      u, more := Replace(w, f, u, names[i]);
      if !more && !changed { SettledNext(w, f, u, names, i); }
      changed := changed || more;
    }
    if !changed { AllSettled(w, f, u, names); }
  }

  lemma SettledNext(w: World, f: string, u: Table, names: seq<string>, i: nat)
    requires i < |names| && Settled(w, f, u, names, i) && names[i] in u && names[i] in Types(w, f)
    requires TypeUses(w, f, u, names[i]) == u[names[i]]
    ensures Settled(w, f, u, names, i + 1)
  {
  }

  lemma AllSettled(w: World, f: string, u: Table, names: seq<string>)
    requires (forall t :: t in names <==> t in Types(w, f)) && Supported(w, f, u) && Settled(w, f, u, names, |names|)
    ensures Solves(w, f, u)
  {
    forall t | t in u ensures TypeUses(w, f, u, t) <= u[t] {
      var j :| 0 <= j < |names| && names[j] == t;
    }
  }

  method Replace(w: World, f: string, before: Table, t: string) returns (u: Table, changed: bool)
    requires t in before && Supported(w, f, before) && Least(w, f, before)
    ensures Supported(w, f, u) && Least(w, f, u)
    ensures if changed then |Room(w, f, u)| < |Room(w, f, before)| else u == before && TypeUses(w, f, u, t) == u[t]
  {
    var uses := TypeUses(w, f, before, t);
    changed := uses != before[t];
    u := before;
    if changed {
      ReplacingStaysLeast(w, f, before, t);
      RoomShrinks(w, f, before, t);
      u := before[t := uses];
    }
  }
}
