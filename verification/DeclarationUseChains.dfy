/**
 Uses from below and above: a type uses exactly the parameters some chain of references
 from its own expressions leads to. A chain is counted by how many types of the family it
 goes through; each reference on it hands the use on by what fills the parameter used, an
 argument, a parameter of the same name in scope, or the one family there is.
 */
module DeclarationUseChains {
  import opened DeclarationModel
  import opened DeclarationUses

  // ---- Chains, by how many types of the family they go through.

  // What an argument, or the scope where none is supplied, makes of a use of the slot it fills.
  ghost predicate Becomes(w: World, f: string, from: string, slots: seq<Parameter>, use: Use, with: Bindings,
                          argued: map<string, bool>, scope: seq<Parameter>, r: Use, n: nat)
    requires with.Keys == argued.Keys
    decreases Types(w, f).Keys, n, 0, 1
  {
    var p := use.parameter;
    if Declares(slots, p, true) then
      // a family, by the name it is handed on as
      && r.drawn == use.drawn && r.parameter != "" && Declares(scope, r.parameter, true)
      && if p in with then FillerName(with[p]) == r.parameter
         else if from == "" then r.parameter == p
         else FamilyParameters(w, f) == [r.parameter]
    else
      && Declares(slots, p, false)
      && if p in with then argued[p]
         else if from != "" then false
         else if Declares(scope, p, false) then r == Use(p, "")
         else n > 0 && NeededBy(w, f, p, r, n - 1)
  }

  // What a reference's target uses: of the family, by a chain; of an import, as is known of it.
  ghost predicate TargetNeeds(w: World, f: string, from: string, x: string, use: Use, n: nat)
    decreases Types(w, f).Keys, n, 0, 0
  {
    if from == "" then n > 0 && NeededBy(w, f, x, use, n - 1) else from in Imports(w, f) && use in Uses(w, from, x)
  }

  ghost predicate RefersTo(w: World, f: string, from: string, x: string, with: Bindings, argued: map<string, bool>,
                           scope: seq<Parameter>, r: Use, n: nat)
    requires with.Keys == argued.Keys
    decreases Types(w, f).Keys, n, 0, 2
  {
    var owner := if from == "" then f else from;
    && x in Types(w, owner)
    && exists use :: TargetNeeds(w, f, from, x, use, n)
                     && Becomes(w, f, from, Scope(w, owner, x), use, with, argued, scope, r, n)
  }

  /** An expression uses a parameter in a scope, by itself or by what it refers to. */
  ghost predicate Needs(w: World, f: string, e: Expr, scope: seq<Parameter>, walking: set<string>, r: Use, n: nat)
    decreases Types(w, f).Keys, n, 1, Types(w, f).Keys - walking, e, 1
  {
    match e
    case Named(x) => if Declares(scope, x, false) then r == Use(x, "") else n > 0 && NeededBy(w, f, x, r, n - 1)
    case Drawn(p, x) => Declares(scope, p, true) && r == Use(p, x)
    case Array(items) => Needs(w, f, items, scope, walking, r, n)
    case Map(values) => Needs(w, f, values, scope, walking, r, n)
    case Nullable(inner) => Needs(w, f, inner, scope, walking, r, n)
    case Imported(from, x) => RefersTo(w, f, from, x, map[], map[], scope, r, n)
    case Apply(from, x, with) => RefersTo(w, f, from, x, with, Argued(w, f, e, scope, walking, r, n), scope, r, n)
    case Ref(entity, _) =>
      && entity in Types(w, f) && entity !in walking
      && Needs(w, f, KeyType(Types(w, f)[entity]), scope, walking + {entity}, r, n)
    case Inline(_, _, fields, variants) =>
      exists m: Member :: (m in fields || m in variants) && Needs(w, f, m.typ, scope, walking, r, n)
    case _ => false
  }

  // Of each argument supplied, whether it uses the parameter.
  ghost function Argued(w: World, f: string, e: Expr, scope: seq<Parameter>, walking: set<string>, r: Use,
                        n: nat): map<string, bool>
    requires e.Apply?
    decreases Types(w, f).Keys, n, 1, Types(w, f).Keys - walking, e, 0
  {
    map p | p in e.with :: Needs(w, f, e.with[p].typ, scope, walking, r, n)
  }

  /** A type parameter of the type's own, or used by one of its expressions. */
  ghost predicate NeededBy(w: World, f: string, t: string, r: Use, n: nat)
    decreases Types(w, f).Keys, n, 2
  {
    && t in Types(w, f)
    && ((exists p :: p in Types(w, f)[t].parameters && !p.ofFamily && r == Use(p.name, ""))
        || exists e :: e in Expressions(Types(w, f)[t]) && Needs(w, f, e, Scope(w, f, t), {t}, r, n))
  }

  // ---- Longer chains lead wherever shorter ones do.

  lemma {:induction false} NeededLonger(w: World, f: string, t: string, r: Use, n: nat)
    requires NeededBy(w, f, t, r, n)
    ensures NeededBy(w, f, t, r, n + 1)
    decreases n, 2
  {
    if e :| e in Expressions(Types(w, f)[t]) && Needs(w, f, e, Scope(w, f, t), {t}, r, n) {
      NeedsLonger(w, f, e, Scope(w, f, t), {t}, r, n);
    }
  }

  lemma {:induction false} NeedsLonger(w: World, f: string, e: Expr, scope: seq<Parameter>, walking: set<string>,
                                       r: Use, n: nat)
    requires Needs(w, f, e, scope, walking, r, n)
    ensures Needs(w, f, e, scope, walking, r, n + 1)
    decreases n, 1, Types(w, f).Keys - walking, e
  {
    match e
    case Named(x) => if !Declares(scope, x, false) { NeededLonger(w, f, x, r, n - 1); }
    case Array(items) => NeedsLonger(w, f, items, scope, walking, r, n);
    case Map(values) => NeedsLonger(w, f, values, scope, walking, r, n);
    case Nullable(inner) => NeedsLonger(w, f, inner, scope, walking, r, n);
    case Imported(from, x) => RefersLonger(w, f, from, x, map[], map[], map[], scope, r, n);
    case Apply(from, x, with) =>
      forall p | p in with && Needs(w, f, with[p].typ, scope, walking, r, n)
        ensures Needs(w, f, with[p].typ, scope, walking, r, n + 1)
      {
        NeedsLonger(w, f, with[p].typ, scope, walking, r, n);
      }
      RefersLonger(w, f, from, x, with, Argued(w, f, e, scope, walking, r, n),
        Argued(w, f, e, scope, walking, r, n + 1),
                   scope, r, n);
    case Ref(entity, _) => NeedsLonger(w, f, KeyType(Types(w, f)[entity]), scope, walking + {entity}, r, n);
    case Inline(_, _, fields, variants) =>
      var m: Member :| (m in fields || m in variants) && Needs(w, f, m.typ, scope, walking, r, n);
      NeedsLonger(w, f, m.typ, scope, walking, r, n);
    case _ =>
  }

  lemma {:induction false} RefersLonger(w: World, f: string, from: string, x: string, with: Bindings,
                                        argued: map<string, bool>, more: map<string, bool>, scope: seq<Parameter>,
                                          r: Use,
                                        n: nat)
    requires with.Keys == argued.Keys == more.Keys && forall p :: p in argued && argued[p] ==> more[p]
    requires RefersTo(w, f, from, x, with, argued, scope, r, n)
    ensures RefersTo(w, f, from, x, with, more, scope, r, n + 1)
    decreases n, 0
  {
    var slots := Scope(w, if from == "" then f else from, x);
    var use :| TargetNeeds(w, f, from, x, use, n) && Becomes(w, f, from, slots, use, with, argued, scope, r, n);
    if from == "" { NeededLonger(w, f, x, use, n - 1); }
    if n > 0 && NeededBy(w, f, use.parameter, r, n - 1) { NeededLonger(w, f, use.parameter, r, n - 1); }
    assert TargetNeeds(w, f, from, x, use, n + 1) && Becomes(w, f, from, slots, use, with, more, scope, r, n + 1);
  }

  lemma {:induction false} NeededAsLong(w: World, f: string, t: string, r: Use, n: nat, m: nat)
    requires NeededBy(w, f, t, r, n) && n <= m
    ensures NeededBy(w, f, t, r, m)
    decreases m - n
  {
    if n < m {
      NeededLonger(w, f, t, r, n);
      NeededAsLong(w, f, t, r, n + 1, m);
    }
  }

  lemma {:induction false} NeedsAsLong(w: World, f: string, e: Expr, scope: seq<Parameter>, walking: set<string>,
                                       r: Use,
                                       n: nat, m: nat)
    requires Needs(w, f, e, scope, walking, r, n) && n <= m
    ensures Needs(w, f, e, scope, walking, r, m)
    decreases m - n
  {
    if n < m {
      NeedsLonger(w, f, e, scope, walking, r, n);
      NeedsAsLong(w, f, e, scope, walking, r, n + 1, m);
    }
  }

  // ---- What a chain leads to is found.

  lemma {:induction false} OneSort(scope: seq<Parameter>, name: string)
    ensures !(Declares(scope, name, true) && Declares(scope, name, false))
  {
    if scope != [] { OneSort(scope[1..], name); }
  }

  // The table has for a type all that its equation yields.
  ghost predicate Closed(w: World, f: string, u: Table, t: string) {
    t in Types(w, f) ==> TypeUses(w, f, u, t) <= At(u, t)
  }

  ghost predicate Closes(w: World, f: string, u: Table) { forall t :: Closed(w, f, u, t) }

  lemma {:induction false} NeededIsFound(w: World, f: string, u: Table, t: string, r: Use, n: nat)
    requires Closes(w, f, u) && NeededBy(w, f, t, r, n)
    ensures r in At(u, t)
    decreases n, 2
  {
    var d, expressions := Types(w, f)[t], Expressions(Types(w, f)[t]);
    if e :| e in expressions && Needs(w, f, e, Scope(w, f, t), {t}, r, n) {
      NeedsIsFound(w, f, u, e, Scope(w, f, t), {t}, r, n);
      var i :| 0 <= i < |expressions| && expressions[i] == e;
      assert r in ExprUses(w, f, u, expressions[i], Scope(w, f, t), {t});
    }
    assert r in TypeUses(w, f, u, t) && Closed(w, f, u, t);
  }

  lemma {:induction false} NeedsIsFound(w: World, f: string, u: Table, e: Expr, scope: seq<Parameter>,
                                        walking: set<string>,
                                        r: Use, n: nat)
    requires Closes(w, f, u) && Needs(w, f, e, scope, walking, r, n)
    ensures r in ExprUses(w, f, u, e, scope, walking)
    decreases n, 1, Types(w, f).Keys - walking, e, 1
  {
    match e
    case Named(x) => if !Declares(scope, x, false) { NeededIsFound(w, f, u, x, r, n - 1); }
    case Array(items) => NeedsIsFound(w, f, u, items, scope, walking, r, n);
    case Map(values) => NeedsIsFound(w, f, u, values, scope, walking, r, n);
    case Nullable(inner) => NeedsIsFound(w, f, u, inner, scope, walking, r, n);
    case Imported(from, x) => RefersIsFound(w, f, u, from, x, map[], map[], map[], scope, r, n);
    case Apply(from, x, with) =>
      forall p | p in with && Needs(w, f, with[p].typ, scope, walking, r, n)
        ensures r in ExprUses(w, f, u, with[p].typ, scope, walking)
      {
        NeedsIsFound(w, f, u, with[p].typ, scope, walking, r, n);
      }
      ApplyIsFound(w, f, u, e, scope, walking, r, n);
    case Ref(entity, _) => NeedsIsFound(w, f, u, KeyType(Types(w, f)[entity]), scope, walking + {entity}, r, n);
    case Inline(_, _, fields, variants) =>
      var m: Member :| (m in fields || m in variants) && Needs(w, f, m.typ, scope, walking, r, n);
      NeedsIsFound(w, f, u, m.typ, scope, walking, r, n);
      MemberUses(w, f, u, e, m, scope, walking, r);
    case _ =>
  }

  lemma {:induction false} ApplyIsFound(w: World, f: string, u: Table, e: Expr, scope: seq<Parameter>,
                                        walking: set<string>,
                                        r: Use, n: nat)
    requires Closes(w, f, u) && e.Apply? && Needs(w, f, e, scope, walking, r, n)
    requires forall p | p in e.with && Needs(w, f, e.with[p].typ, scope, walking, r, n) ::
               r in ExprUses(w, f, u, e.with[p].typ, scope, walking)
    ensures r in ExprUses(w, f, u, e, scope, walking)
    decreases n, 1, Types(w, f).Keys - walking, e, 0
  {
    RefersIsFound(w, f, u, e.applyFamily, e.applied, e.with, Argued(w, f, e, scope, walking, r, n),
                  Fills(w, f, u, e, scope, walking), scope, r, n);
    FillsAreUsed(w, f, u, e, scope, walking);
  }

  ghost function Fills(w: World, f: string, u: Table, e: Expr, scope: seq<Parameter>, walking: set<string>): map<string,
                       set<Use>>
    requires e.Apply?
  {
    map p | p in e.with :: ExprUses(w, f, u, e.with[p].typ, scope, walking)
  }

  lemma FillsAreUsed(w: World, f: string, u: Table, e: Expr, scope: seq<Parameter>, walking: set<string>)
    requires e.Apply?
    ensures ExprUses(w, f, u, e, scope, walking) ==
            ApplicationUses(w, f, u, e.applyFamily, e.applied, e.with, Fills(w, f, u, e, scope, walking), scope)
  {
    var fills := map p | p in e.with :: ExprUses(w, f, u, e.with[p].typ, scope, walking);
    assert fills == Fills(w, f, u, e, scope, walking);
    assert ExprUses(w, f, u, e, scope, walking) ==
           ApplicationUses(w, f, u, e.applyFamily, e.applied, e.with, fills, scope);
  }

  lemma MemberUses(w: World, f: string, u: Table, e: Expr, m: Member, scope: seq<Parameter>, walking: set<string>,
                   r: Use)
    requires e.Inline? && (m in e.fields || m in e.variants) && r in ExprUses(w, f, u, m.typ, scope, walking)
    ensures r in ExprUses(w, f, u, e, scope, walking)
  {
    if m in e.fields {
      var i :| 0 <= i < |e.fields| && e.fields[i] == m;
      assert r in ExprUses(w, f, u, e.fields[i].typ, scope, walking);
    } else {
      var i :| 0 <= i < |e.variants| && e.variants[i] == m;
      assert r in ExprUses(w, f, u, e.variants[i].typ, scope, walking);
    }
  }

  lemma {:induction false} RefersIsFound(w: World, f: string, u: Table, from: string, x: string, with: Bindings,
                                         argued: map<string, bool>, fills: map<string, set<Use>>, scope: seq<Parameter>,
                                         r: Use, n: nat)
    requires Closes(w, f, u) && with.Keys == argued.Keys == fills.Keys
    requires forall p :: p in argued && argued[p] ==> r in fills[p]
    requires RefersTo(w, f, from, x, with, argued, scope, r, n)
    ensures r in ApplicationUses(w, f, u, from, x, with, fills, scope)
    decreases n, 0
  {
    var slots := Scope(w, if from == "" then f else from, x);
    var use :| TargetNeeds(w, f, from, x, use, n) && Becomes(w, f, from, slots, use, with, argued, scope, r, n);
    if from == "" { NeededIsFound(w, f, u, x, use, n - 1); }
    if n > 0 && NeededBy(w, f, use.parameter, r, n - 1) { NeededIsFound(w, f, u, use.parameter, r, n - 1); }
    TargetIsFound(w, f, u, from, x, use, n);
    BecomesIsFound(w, f, u, from, slots, use, with, argued, fills, scope, r, n);
    SlotIsFound(w, f, u, from, x, slots, use, with, fills, scope, r);
  }

  lemma TargetIsFound(w: World, f: string, u: Table, from: string, x: string, use: Use, n: nat)
    requires TargetNeeds(w, f, from, x, use, n) && (from == "" ==> use in At(u, x))
    ensures use in TargetUses(w, f, u, from, x)
  {
  }

  lemma BecomesIsFound(w: World, f: string, u: Table, from: string, slots: seq<Parameter>, use: Use, with: Bindings,
                       argued: map<string, bool>, fills: map<string, set<Use>>, scope: seq<Parameter>, r: Use, n: nat)
    requires with.Keys == argued.Keys == fills.Keys && forall p :: p in argued && argued[p] ==> r in fills[p]
    requires Becomes(w, f, from, slots, use, with, argued, scope, r, n)
    requires n > 0 && NeededBy(w, f, use.parameter, r, n - 1) ==> r in At(u, use.parameter)
    ensures r in SlotUses(w, f, u, from, slots, use, with, fills, scope)
  {
    OneSort(slots, use.parameter);
    OneSort(scope, use.parameter);
  }

  lemma SlotIsFound(w: World, f: string, u: Table, from: string, x: string, slots: seq<Parameter>, use: Use,
                    with: Bindings,
                    fills: map<string, set<Use>>, scope: seq<Parameter>, r: Use)
    requires with.Keys == fills.Keys && use in TargetUses(w, f, u, from, x)
    requires var owner := if from == "" then f else from; x in Types(w, owner) && slots == Scope(w, owner, x)
    requires r in SlotUses(w, f, u, from, slots, use, with, fills, scope)
    ensures r in ApplicationUses(w, f, u, from, x, with, fills, scope)
  {
  }

  // ---- What is found, some chain leads to: what is led to solves the equations.

  // Some finite chain of references leads to the use.
  ghost predicate LedTo(w: World, f: string, t: string, r: Use) { exists n: nat :: NeededBy(w, f, t, r, n) }

  ghost function ChainRoom(w: World, f: string): set<Use> {
    set p, x | p in BoundsOf(w, f).names && x in BoundsOf(w, f).drawn :: Use(p, x)
  }

  ghost function AllLedTo(w: World, f: string): Table {
    map t | t in Types(w, f) :: set r | r in ChainRoom(w, f) && LedTo(w, f, t, r)
  }

  // What the table found lists is led to.
  ghost predicate Grounded(w: World, f: string, u: Table) { forall t, r :: r in At(u, t) ==> LedTo(w, f, t, r) }

  lemma {:induction false} FoundIsNeeded(w: World, f: string, u: Table, t: string, r: Use)
    requires Grounded(w, f, u) && t in Types(w, f) && r in TypeUses(w, f, u, t)
    ensures LedTo(w, f, t, r)
  {
    var d, expressions := Types(w, f)[t], Expressions(Types(w, f)[t]);
    if p :| p in d.parameters && !p.ofFamily && r == Use(p.name, "") {
      assert NeededBy(w, f, t, r, 0);
    } else {
      var i :| 0 <= i < |expressions| && r in ExprUses(w, f, u, expressions[i], Scope(w, f, t), {t});
      var n := ExprIsNeeded(w, f, u, expressions[i], Scope(w, f, t), {t}, r);
      assert expressions[i] in expressions;
      assert NeededBy(w, f, t, r, n);
    }
  }

  lemma {:induction false} ExprIsNeeded(w: World, f: string, u: Table, e: Expr, scope: seq<Parameter>,
                                        walking: set<string>,
                                        r: Use) returns (n: nat)
    requires Grounded(w, f, u) && r in ExprUses(w, f, u, e, scope, walking)
    ensures Needs(w, f, e, scope, walking, r, n)
    decreases Types(w, f).Keys - walking, e, 1
  {
    n := 0;
    match e
    case Named(x) => if !Declares(scope, x, false) { n := NamedIsNeeded(w, f, u, x, r); }
    case Drawn(p, x) =>
    case Array(items) => n := ExprIsNeeded(w, f, u, items, scope, walking, r);
    case Map(values) => n := ExprIsNeeded(w, f, u, values, scope, walking, r);
    case Nullable(inner) => n := ExprIsNeeded(w, f, u, inner, scope, walking, r);
    case Imported(from, x) => n := ImportIsNeeded(w, f, u, from, x, scope, r);
    case Apply(from, x, with) =>
      FillsAreUsed(w, f, u, e, scope, walking);
      var use := UsedThrough(w, f, u, from, x, with, Fills(w, f, u, e, scope, walking), scope, r);
      var m := 0;
      if use.parameter in with && r in ExprUses(w, f, u, with[use.parameter].typ, scope, walking) {
        m := ExprIsNeeded(w, f, u, with[use.parameter].typ, scope, walking, r);
      }
      n := ThroughIsNeeded(w, f, u, e, scope, walking, use, r, m);
    case Ref(entity, _) => n := ExprIsNeeded(w, f, u, KeyType(Types(w, f)[entity]), scope, walking + {entity}, r);
    case Inline(_, _, fields, variants) =>
      if i :| 0 <= i < |fields| && r in ExprUses(w, f, u, fields[i].typ, scope, walking) {
        n := ExprIsNeeded(w, f, u, fields[i].typ, scope, walking, r);
        assert fields[i] in fields;
      } else {
        var j :| 0 <= j < |variants| && r in ExprUses(w, f, u, variants[j].typ, scope, walking);
        n := ExprIsNeeded(w, f, u, variants[j].typ, scope, walking, r);
        assert variants[j] in variants;
      }
    case _ =>
  }

  lemma {:induction false} NamedIsNeeded(w: World, f: string, u: Table, x: string, r: Use) returns (n: nat)
    requires Grounded(w, f, u) && r in At(u, x)
    ensures n > 0 && NeededBy(w, f, x, r, n - 1)
  {
    assert LedTo(w, f, x, r);
    var m: nat :| NeededBy(w, f, x, r, m);
    n := m + 1;
  }

  // The use of the target by which an application uses a parameter.
  lemma UsedThrough(w: World, f: string, u: Table, from: string, x: string, with: Bindings, fills: map<string,
                    set<Use>>,
                    scope: seq<Parameter>, r: Use) returns (use: Use)
    requires with.Keys == fills.Keys && r in ApplicationUses(w, f, u, from, x, with, fills, scope)
    ensures var owner := if from == "" then f else from;
            && x in Types(w, owner) && use in TargetUses(w, f, u, from, x)
            && r in SlotUses(w, f, u, from, Scope(w, owner, x), use, with, fills, scope)
  {
    var owner := if from == "" then f else from;
    use :| use in TargetUses(w, f, u, from, x)
      && r in SlotUses(w, f, u, from, Scope(w, owner, x), use, with, fills, scope);
  }

  // A use of the target is led to, after as many references as it takes.
  lemma {:induction false} TargetIsNeeded(w: World, f: string, u: Table, from: string, x: string, use: Use, least: nat)
    returns (n: nat)
    requires Grounded(w, f, u) && use in TargetUses(w, f, u, from, x)
    ensures n >= least && TargetNeeds(w, f, from, x, use, n)
  {
    n := least;
    if from == "" {
      var m := NamedIsNeeded(w, f, u, x, use);
      if m > n { n := m; }
      NeededAsLong(w, f, x, use, m - 1, n - 1);
    }
  }

  lemma NeededFromThen(w: World, f: string, t: string, r: Use, n: nat)
    requires NeededBy(w, f, t, r, n)
    ensures forall m: nat :: n <= m ==> NeededBy(w, f, t, r, m)
  {
    forall m: nat | n <= m ensures NeededBy(w, f, t, r, m) { NeededAsLong(w, f, t, r, n, m); }
  }

  // What becomes of it, likewise.
  lemma {:induction false} SlotIsNeeded(w: World, f: string, u: Table, from: string, slots: seq<Parameter>, use: Use,
                                        with: Bindings, fills: map<string, set<Use>>, scope: seq<Parameter>, r: Use,
                                        least: nat)
    returns (n: nat)
    requires Grounded(w, f, u) && with.Keys == fills.Keys
    requires r in SlotUses(w, f, u, from, slots, use, with, fills, scope)
    ensures n >= least
    ensures forall m, argued: map<string, bool> ::
              m >= n && argued.Keys == with.Keys
              && (use.parameter in with && r in fills[use.parameter] ==> argued[use.parameter]) ==>
                Becomes(w, f, from, slots, use, with, argued, scope, r, m)
  {
    n := least;
    var p, one := use.parameter, FamilyParameters(w, f);
    OneSort(slots, p);
    OneSort(scope, p);
    if |one| == 1 { assert one == [one[0]]; }
    if Declares(slots, p, false) && p !in with && !Declares(scope, p, false) {
      var m := NamedIsNeeded(w, f, u, p, r);
      if m > n { n := m; }
      NeededFromThen(w, f, p, r, m - 1);
    }
  }

  lemma {:induction false} ImportIsNeeded(w: World, f: string, u: Table, from: string, x: string, scope: seq<Parameter>,
                                          r: Use)
    returns (n: nat)
    requires Grounded(w, f, u) && r in ApplicationUses(w, f, u, from, x, map[], map[], scope)
    ensures RefersTo(w, f, from, x, map[], map[], scope, r, n)
  {
    var use := UsedThrough(w, f, u, from, x, map[], map[], scope, r);
    var m := SlotIsNeeded(w, f, u, from, Scope(w, if from == "" then f else from, x), use, map[], map[], scope, r, 0);
    n := TargetIsNeeded(w, f, u, from, x, use, m);
    var none: map<string, bool> := map[];
    assert Becomes(w, f, from, Scope(w, if from == "" then f else from, x), use, map[], none, scope, r, n);
  }

  lemma {:induction false} ThroughIsNeeded(w: World, f: string, u: Table, e: Expr, scope: seq<Parameter>,
                                           walking: set<string>,
                                           use: Use, r: Use, m: nat)
    returns (n: nat)
    requires Grounded(w, f, u) && e.Apply? && use in TargetUses(w, f, u, e.applyFamily, e.applied)
    requires var owner := if e.applyFamily == "" then f else e.applyFamily;
             && e.applied in Types(w, owner)
             && r in SlotUses(w, f, u, e.applyFamily, Scope(w, owner, e.applied), use, e.with,
                Fills(w, f, u, e, scope, walking), scope)
    requires use.parameter in e.with && r in ExprUses(w, f, u, e.with[use.parameter].typ, scope, walking) ==>
               Needs(w, f, e.with[use.parameter].typ, scope, walking, r, m)
    ensures RefersTo(w, f, e.applyFamily, e.applied, e.with, Argued(w, f, e, scope, walking, r, n), scope, r, n)
  {
    var slots := Scope(w, if e.applyFamily == "" then f else e.applyFamily, e.applied);
    var k := SlotIsNeeded(w, f, u, e.applyFamily, slots, use, e.with, Fills(w, f, u, e, scope, walking), scope, r, m);
    n := TargetIsNeeded(w, f, u, e.applyFamily, e.applied, use, k);
    if use.parameter in e.with && r in ExprUses(w, f, u, e.with[use.parameter].typ, scope, walking) {
      NeedsAsLong(w, f, e.with[use.parameter].typ, scope, walking, r, m, n);
    }
    assert Becomes(w, f, e.applyFamily, slots, use, e.with, Argued(w, f, e, scope, walking, r, n), scope, r, n);
  }

  lemma AllIsGrounded(w: World, f: string)
    ensures Grounded(w, f, AllLedTo(w, f))
  {
  }

  lemma {:induction false} AllLedToSolves(w: World, f: string)
    ensures Solves(w, f, AllLedTo(w, f))
  {
    var d := AllLedTo(w, f);
    AllIsGrounded(w, f);
    forall t | t in d ensures Inside(BoundsOf(w, f), d[t]) {
    }
    forall t | t in d ensures TypeUses(w, f, d, t) <= d[t] {
      TypeUsesGrow(w, f, d, d, t);
      forall r | r in TypeUses(w, f, d, t) ensures r in d[t] {
        FoundIsNeeded(w, f, d, t, r);
        assert Use(r.parameter, r.drawn) in ChainRoom(w, f);
      }
    }
  }

  lemma SolvesCloses(w: World, f: string, u: Table)
    requires Solves(w, f, u)
    ensures Closes(w, f, u)
  {
    forall t ensures Closed(w, f, u, t) {
      if t in Types(w, f) { assert t in u; }
    }
  }

  /** In the least table a type uses a parameter if and only if some finite chain of references
      leads to the use: from a type parameter of its own or an expression of its own, through the
      uses of what it refers to, each handed on by what fills it. */
  lemma {:induction false} UsesAreLedTo(w: World, f: string, u: Table, t: string, r: Use)
    requires Solves(w, f, u) && Least(w, f, u) && t in u
    ensures r in u[t] <==> LedTo(w, f, t, r)
  {
    var d := AllLedTo(w, f);
    AllLedToSolves(w, f);
    assert Below(u, d);
    AllIsGrounded(w, f);
    if r in u[t] {
      assert u[t] <= At(d, t);
      assert r in At(d, t);
    }
    if LedTo(w, f, t, r) {
      var n: nat :| NeededBy(w, f, t, r, n);
      SolvesCloses(w, f, u);
      NeededIsFound(w, f, u, t, r, n);
    }
  }
}
