/**
 What captures are for: unfolded to any depth, a type looks at no parameter it is not said
 to capture.
 */
module DeclarationCapturedness {
  import opened DeclarationModel
  import opened DeclarationCaptures
  import opened DeclarationUnfolding

  lemma {:induction false} UnfoldingAgrees(w: World, c: Captures, key: Key, a: Filled, b: Filled, e: Expr,
                                           shadow: set<string>, depth: nat)
    requires Ready(w, c, key, a, b, ExprCaptures(w, key, c, e, shadow))
    ensures SameUnfolding(w, key, a, b, e, shadow, depth)
    decreases depth, 2, e, 1
  {
    var names := ExprCaptures(w, key, c, e, shadow);
    match e
    case Named(_) => ReferenceAgrees(w, c, key, a, b, e, shadow, depth);
    case Imported(_, _) => ReferenceAgrees(w, c, key, a, b, e, shadow, depth);
    case Drawn(p, _) => StandingAgrees(w, key, a, b, shadow, p, names);
    case Array(items) => UnfoldingAgrees(w, c, key, a, b, items, shadow, depth);
    case Map(values) => UnfoldingAgrees(w, c, key, a, b, values, shadow, depth);
    case Nullable(inner) => UnfoldingAgrees(w, c, key, a, b, inner, shadow, depth);
    case Ref(_, _) => ReferenceAgrees(w, c, key, a, b, e, shadow, depth);
    case Apply(from, x, with) =>
      forall p: Parameter | p.name in with && Supplied(w, key, c, e, p)
        ensures SameUnfolding(w, key, a, b, with[p.name].typ, shadow, depth)
      {
        FillerCaptured(w, key, c, e, p, shadow);
        UnfoldingAgrees(w, c, key, a, b, with[p.name].typ, shadow, depth);
      }
      ApplyAgrees(w, c, key, a, b, e, shadow, depth, names);
    case Inline(_, own, fields, variants) =>
      var inner := shadow + set p | p in own;
      forall m | m in fields + variants ensures SameUnfolding(w, key, a, b, m.typ, inner, depth) {
        MemberCaptured(w, key, c, e, m, shadow);
        UnfoldingAgrees(w, c, key, a, b, m.typ, inner, depth);
      }
      InlineAgrees(w, key, a, b, e, shadow, depth);
    case _ =>
  }

  // A name, an import or a reference to an entity.
  lemma ReferenceAgrees(w: World, c: Captures, key: Key, a: Filled, b: Filled, e: Expr, shadow: set<string>, depth: nat)
    requires Ready(w, c, key, a, b, ExprCaptures(w, key, c, e, shadow)) && (e.Named? || e.Imported? || e.Ref?)
    ensures SameUnfolding(w, key, a, b, e, shadow, depth)
    decreases depth, 2, e, 0
  {
    var names := ExprCaptures(w, key, c, e, shadow);
    match e
    case Named(x) =>
      if x in shadow || x in InScope(w, key) { StandingAgrees(w, key, a, b, shadow, x, names); }
      else { PlainAgrees(w, c, key, a, b, key.0, x, shadow, depth, names); }
    case Imported(from, x) =>
      if from in Imports(w, key.0) { PlainAgrees(w, c, key, a, b, from, x, shadow, depth, names); }
    case Ref(entity, from) =>
      var owner := if from == "" || from == key.0 then key.0 else from;
      if owner == key.0 || owner in Imports(w, key.0) {
        PlainAgrees(w, c, key, a, b, owner, entity, shadow, depth, names);
      }
  }

  // The family an application's target is looked up in.
  function Owner(key: Key, e: Expr): string
    requires e.Apply?
  {
    if e.applyFamily == "" then key.0 else e.applyFamily
  }

  // The application resolves, and the parameter is a slot of its target.
  ghost predicate Supplied(w: World, key: Key, c: Captures, e: Expr, p: Parameter)
    requires e.Apply?
  {
    && (e.applyFamily == "" || e.applyFamily in Imports(w, key.0)) && e.applied in Types(w, Owner(key, e))
    && p in Slots(w, c, Owner(key, e), e.applied)
  }

  lemma FillerCaptured(w: World, key: Key, c: Captures, e: Expr, p: Parameter, shadow: set<string>)
    requires e.Apply? && Supplied(w, key, c, e, p) && p.name in e.with
    ensures ExprCaptures(w, key, c, e.with[p.name].typ, shadow) <= ExprCaptures(w, key, c, e, shadow)
  {
    var owner := Owner(key, e);
    var fills := Supplies(w, key, c, e, shadow);
    assert forall x :: x in Filling(w, key, owner, p, fills, shadow) ==>
           x in Application(w, key, c, owner, e.applied, fills, shadow);
  }

  lemma MemberCaptured(w: World, key: Key, c: Captures, e: Expr, m: Member, shadow: set<string>)
    requires e.Inline? && m in e.fields + e.variants
    ensures ExprCaptures(w, key, c, m.typ, shadow + (set p | p in e.own)) <= ExprCaptures(w, key, c, e, shadow)
  {
    var inner := shadow + set p | p in e.own;
    if m in e.fields {
      var i :| 0 <= i < |e.fields| && e.fields[i] == m;
      assert forall x :: x in ExprCaptures(w, key, c, e.fields[i].typ, inner) ==>
             x in ExprCaptures(w, key, c, e, shadow);
    } else {
      var i :| 0 <= i < |e.variants| && e.variants[i] == m;
      assert forall x :: x in ExprCaptures(w, key, c, e.variants[i].typ, inner) ==>
             x in ExprCaptures(w, key, c, e, shadow);
    }
  }

  lemma InlineAgrees(w: World, key: Key, a: Filled, b: Filled, e: Expr, shadow: set<string>, depth: nat)
    requires e.Inline?
             && forall m | m in e.fields + e.variants ::
             SameUnfolding(w, key, a, b, m.typ, shadow + (set p | p in e.own), depth)
    ensures SameUnfolding(w, key, a, b, e, shadow, depth)
  {
    var inner := shadow + set p | p in e.own;
    forall i | 0 <= i < |e.fields| ensures SameUnfolding(w, key, a, b, e.fields[i].typ, inner, depth) {
      assert e.fields[i] in e.fields + e.variants;
    }
    forall i | 0 <= i < |e.variants| ensures SameUnfolding(w, key, a, b, e.variants[i].typ, inner, depth) {
      assert e.variants[i] in e.fields + e.variants;
    }
  }

  lemma ApplyAgrees(w: World, c: Captures, key: Key, a: Filled, b: Filled, e: Expr, shadow: set<string>, depth: nat,
                    names: set<string>)
    requires e.Apply? && names == ExprCaptures(w, key, c, e, shadow) && Ready(w, c, key, a, b, names)
    requires forall p: Parameter | p.name in e.with
             && Supplied(w, key, c, e, p) :: SameUnfolding(w, key, a, b, e.with[p.name].typ, shadow, depth)
    ensures SameUnfolding(w, key, a, b, e, shadow, depth)
    decreases depth, 1
  {
    if (e.applyFamily == "" || e.applyFamily in Imports(w, key.0)) && e.applied in Types(w, Owner(key, e)) {
      var captured := Supplies(w, key, c, e, shadow);
      var f, g := Fills(w, key, a, e, shadow, depth), Fills(w, key, b, e, shadow, depth);
      forall p | p in Slots(w, c, Owner(key, e), e.applied) && p.name in captured ensures f[p.name] == g[p.name] {
        assert Supplied(w, key, c, e, p);
      }
      AppliesTo(w, c, key, a, e, shadow, depth);
      AppliesTo(w, c, key, b, e, shadow, depth);
      TargetAgrees(w, c, key, a, b, Owner(key, e), e.applied, captured, f, g, shadow, depth, names);
    }
  }

  // An application that resolves is its target, given what it supplies.
  lemma AppliesTo(w: World, c: Captures, key: Key, env: Filled, e: Expr, shadow: set<string>, depth: nat)
    requires e.Apply? && (e.applyFamily == "" || e.applyFamily in Imports(w, key.0))
    ensures Unfold(w, key, env, e, shadow, depth) ==
            Target(w, key, env, Owner(key, e), e.applied, Fills(w, key, env, e, shadow, depth), shadow, depth)
    ensures ExprCaptures(w, key, c, e, shadow) ==
            Application(w, key, c, Owner(key, e), e.applied, Supplies(w, key, c, e, shadow), shadow)
  {
  }

  lemma PlainAgrees(w: World, c: Captures, key: Key, a: Filled, b: Filled, owner: string, target: string,
                    shadow: set<string>, depth: nat, names: set<string>)
    requires Ready(w, c, key, a, b, names) && Application(w, key, c, owner, target, map[], shadow) <= names
    requires owner == key.0 || owner in Imports(w, key.0)
    ensures Target(w, key, a, owner, target, map[], shadow, depth) ==
            Target(w, key, b, owner, target, map[], shadow, depth)
    decreases depth, 1
  {
    TargetAgrees(w, c, key, a, b, owner, target, map[], map[], map[], shadow, depth, names);
  }

  lemma {:induction false} TargetAgrees(w: World, c: Captures, key: Key, a: Filled, b: Filled, owner: string,
                                        target: string, 
                                        fills: map<string, set<string>>, f: Filled, g: Filled, shadow: set<string>,
                                        depth: nat, names: set<string>)
    requires Ready(w, c, key, a, b, names) && Application(w, key, c, owner, target, fills, shadow) <= names
    requires (owner == key.0 || owner in Imports(w, key.0)) && f.Keys == g.Keys == fills.Keys
    requires target in Types(w, owner) ==> forall p :: p in Slots(w, c, owner, target) && p.name in fills ==>
             f[p.name] == g[p.name]
    ensures Target(w, key, a, owner, target, f, shadow, depth) == Target(w, key, b, owner, target, g, shadow, depth)
    decreases depth, 0
  {
    if target in Types(w, owner) && depth > 0 {
      ArgumentsAgree(w, c, key, a, b, owner, target, fills, f, g, shadow, names);
      var x, y := Arguments(w, key, a, owner, target, f, shadow), Arguments(w, key, b, owner, target, g, shadow);
      assert Ready(w, c, (owner, target), x, y, At(c, (owner, target)));
      CapturesSuffice(w, c, (owner, target), x, y, depth - 1);
      OpenedAgrees(w, key, a, b, owner, target, f, g, shadow, depth);
    }
  }

  // Arguments under which every expression unfolds alike make one unfolding.
  lemma OpenedAgrees(w: World, key: Key, a: Filled, b: Filled, owner: string, target: string, f: Filled, g: Filled,
                     shadow: set<string>, depth: nat)
    requires target in Types(w, owner) && depth > 0
    requires forall e :: e in Expressions(Types(w, owner)[target]) ==>
               SameUnfolding(w, (owner, target), Arguments(w, key, a, owner, target, f, shadow),
                 Arguments(w, key, b, owner, target, g, shadow), e, {}, depth - 1)
    ensures Target(w, key, a, owner, target, f, shadow, depth) == Target(w, key, b, owner, target, g, shadow, depth)
  {
    var x, y := Arguments(w, key, a, owner, target, f, shadow), Arguments(w, key, b, owner, target, g, shadow);
    var expressions := Expressions(Types(w, owner)[target]);
    forall i | 0 <= i < |expressions| ensures SameUnfolding(w, (owner, target), x, y, expressions[i], {}, depth - 1) {
      assert expressions[i] in expressions;
    }
  }

  /** Two ways of filling a type's parameters that agree on what it captures unfold it alike. */
  lemma {:induction false} CapturesSuffice(w: World, c: Captures, key: Key, a: Filled, b: Filled, depth: nat)
    requires Ready(w, c, key, a, b, At(c, key)) && key.1 in Types(w, key.0)
    ensures forall e :: e in Expressions(Types(w, key.0)[key.1]) ==> SameUnfolding(w, key, a, b, e, {}, depth)
    decreases depth, 3
  {
    var expressions := Expressions(Types(w, key.0)[key.1]);
    forall e | e in expressions ensures SameUnfolding(w, key, a, b, e, {}, depth) {
      var i :| 0 <= i < |expressions| && expressions[i] == e;
      assert forall x :: x in ExprCaptures(w, key, c, expressions[i], {}) ==> x in TypeCaptures(w, c, key);
      UnfoldingAgrees(w, c, key, a, b, e, {}, depth);
    }
  }
}
