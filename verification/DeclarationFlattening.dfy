/**
 Flattening a record: inherited fields first, along each inheritance path, each viewed in
 the family that asks.
 */
module DeclarationFlattening {
  import opened DeclarationModel
  import opened DeclarationBinding
  import opened DeclarationUses
  import opened DeclarationFields
  import opened DeclarationChecks
  import opened DeclarationInference
  import opened DeclarationPaths
  import opened Wrappers

  // ---- Families the checks accept.

  // What a walk asks of every type of the families.
  ghost predicate Ready(w: World, families: set<string>) {
    forall s, t | s in families && t in Types(w, s) :: TypeReady(w, families, s, t)
  }

  ghost predicate TypeReady(w: World, families: set<string>, s: string, t: string)
    requires t in Types(w, s)
  {
    DeclarationChecked(w, s, t)
    && forall i :: 0 <= i < |Types(w, s)[t].bases| ==> EdgeReady(w, families, s, Types(w, s)[t].bases[i])
  }

  ghost predicate EdgeReady(w: World, families: set<string>, s: string, base: Base) {
    BaseOf(w, s, base).Some? ==> BaseOf(w, s, base).value.0 in families && NamesOf(families, base.with)
  }

  lemma {:induction false} AcceptedIsReady(w: World, families: set<string>)
    requires Accepted(w, families)
    ensures Ready(w, families) && "" !in families
  {
    AcceptedIsSettled(w, families);
    forall s, t | s in families && t in Types(w, s) ensures TypeReady(w, families, s, t) {
      AcceptedIsChecked(w, families, s, t);
      assert TypeAccepted(w, s, t);
      forall i | 0 <= i < |Types(w, s)[t].bases| ensures EdgeReady(w, families, s, Types(w, s)[t].bases[i]) {
        assert EdgeResolves(w, s, Scope(w, s, t), Types(w, s)[t].bases[i]);
      }
    }
    forall s | s in families ensures s != "" { assert FamilyAccepted(w, s); }
  }

  // ---- One path, and all the paths beneath it.

  // The caller's view of a type, whatever it uses.
  ghost predicate Sees(w: World, f: string, env: Env, source: string, t: string, with: Bindings, envS: Env, keeps: bool,
                       spoiled: set<string>, families: set<string>, tell: bool) {
    View(w, f, env, source, with, envS, Uses(w, source, t), keeps, spoiled, families, tell)
  }

  // The fields found mean what nested evaluation gives if nothing spoils, and if all is to be told only then.
  ghost predicate Exact(w: World, f: string, env: Env, fields: seq<FieldAt>, nested: seq<Placed>, sound: bool,
                        tell: bool) {
    && |fields| == |nested| && (sound ==> Meaning(w, f, env, fields) == nested)
    && (tell && Meaning(w, f, env, fields) == nested ==> sound)
  }

  lemma ExactConcat(w: World, f: string, env: Env, a: seq<FieldAt>, b: seq<FieldAt>, c: seq<Placed>, d: seq<Placed>,
                    one: bool, other: bool, tell: bool)
    requires Exact(w, f, env, a, c, one, tell) && Exact(w, f, env, b, d, other, tell)
    ensures Exact(w, f, env, a + b, c + d, one && other, tell)
  {
    MeaningConcat(w, f, env, a, b);
    var m := Meaning(w, f, env, a + b);
    assert m[..|a|] == Meaning(w, f, env, a) && m[|a|..] == Meaning(w, f, env, b);
    assert (c + d)[..|c|] == c && (c + d)[|c|..] == d;
  }

  lemma {:induction false} OwnExact(w: World, f: string, env: Env, families: set<string>, source: string, t: string,
                                    with: Bindings, envS: Env, keeps: bool, spoiled: set<string>, tell: bool)
    requires t in Types(w, source) && DeclarationChecked(w, source, t) && FillsOne(w, f, env, families, tell)
    requires Sees(w, f, env, source, t, with, envS, keeps, spoiled, families, tell)
    ensures var fields := Types(w, source)[t].fields;
            Exact(w, f, env, BoundOwn(w, f, source, t, fields, with), Own(w, source, t, fields, envS),
                  forall i :: 0 <= i < |fields| ==> !Spoils(w, source, fields[i].typ, keeps, spoiled), tell)
  {
    var fields := Types(w, source)[t].fields;
    var bound, own := Meaning(w, f, env, BoundOwn(w, f, source, t, fields, with)), Own(w, source, t, fields, envS);
    forall i | 0 <= i < |fields|
      ensures bound[i] == own[i] <==> Alike(w, f, env, fields[i].typ, source, with, envS)
      ensures !Spoils(w, source, fields[i].typ, keeps, spoiled) ==> bound[i] == own[i]
      ensures tell && bound[i] == own[i] ==> !Spoils(w, source, fields[i].typ, keeps, spoiled)
    {
      FieldDenotes(w, f, env, source, with, envS, Uses(w, source, t), keeps, spoiled, families, tell, fields[i].typ);
    }
  }

  lemma {:induction false} PathsExact(w: World, f: string, env: Env, families: set<string>, source: string, t: string,
                                      with: Bindings, envS: Env, keeps: bool, spoiled: set<string>, tell: bool,
                                      stack: set<Reached>)
    requires Ready(w, families) && "" !in families && source in families && FillsOne(w, f, env, families, tell)
    requires Sees(w, f, env, source, t, with, envS, keeps, spoiled, families, tell)
    ensures Exact(w, f, env, Flattened(w, f, source, t, with, stack), Nested(w, source, t, envS, stack),
                  NothingSpoils(w, f, source, t, with, keeps, spoiled, stack), tell)
    decreases AllTypes(w) - stack, 1, 0
  {
    if t in Types(w, source) && (source, t) !in stack {
      assert (source, t) in AllTypes(w);
      var d, deeper := Types(w, source)[t], stack + {(source, t)};
      assert TypeReady(w, families, source, t);
      BasesExact(w, f, env, families, source, t, |d.bases|, with, envS, keeps, spoiled, tell, deeper);
      assert d.bases[..|d.bases|] == d.bases;
      OwnExact(w, f, env, families, source, t, with, envS, keeps, spoiled, tell);
      ExactConcat(w, f, env, FlattenedBases(w, f, source, d.bases, with, deeper),
        BoundOwn(w, f, source, t, d.fields, with),
                  NestedBases(w, source, d.bases, envS, deeper), Own(w, source, t, d.fields, envS),
                  BasesSpoilNothing(w, f, source, t, d.bases, with, keeps, spoiled, deeper),
                  forall i :: 0 <= i < |d.fields| ==> !Spoils(w, source, d.fields[i].typ, keeps, spoiled), tell);
    }
  }

  lemma {:induction false} BasesExact(w: World, f: string, env: Env, families: set<string>, source: string, t: string,
                                      n: nat, with: Bindings, envS: Env, keeps: bool, spoiled: set<string>, tell: bool,
                                      stack: set<Reached>)
    requires Ready(w, families) && "" !in families && source in families && FillsOne(w, f, env, families, tell)
    requires Sees(w, f, env, source, t, with, envS, keeps, spoiled, families, tell)
    requires t in Types(w, source) && n <= |Types(w, source)[t].bases|
    ensures var bases := Types(w, source)[t].bases[..n];
            Exact(w, f, env, FlattenedBases(w, f, source, bases, with, stack),
              NestedBases(w, source, bases, envS, stack),
                  BasesSpoilNothing(w, f, source, t, bases, with, keeps, spoiled, stack), tell)
    decreases AllTypes(w) - stack, 2, n
  {
    var bases := Types(w, source)[t].bases;
    if n > 0 {
      BasesExact(w, f, env, families, source, t, n - 1, with, envS, keeps, spoiled, tell, stack);
      BaseExact(w, f, env, families, source, t, n - 1, with, envS, keeps, spoiled, tell, stack);
      NextExact(w, f, env, source, t, bases, n - 1, with, envS, keeps, spoiled, tell, stack);
    }
  }

  lemma NextExact(w: World, f: string, env: Env, source: string, t: string, bases: seq<Base>, i: nat, with: Bindings,
                  envS: Env, keeps: bool, spoiled: set<string>, tell: bool, stack: set<Reached>)
    requires i < |bases|
    requires Exact(w, f, env, FlattenedBases(w, f, source, bases[..i], with, stack),
                   NestedBases(w, source, bases[..i], envS, stack),
                   BasesSpoilNothing(w, f, source, t, bases[..i], with, keeps, spoiled, stack), tell)
    requires Exact(w, f, env, FlattenedBase(w, f, source, bases[i], with, stack),
             NestedBase(w, source, bases[i], envS, stack),
                   BaseSpoilsNothing(w, f, source, bases[i], with, keeps, spoiled, stack), tell)
    ensures Exact(w, f, env, FlattenedBases(w, f, source, bases[..i + 1], with, stack),
                  NestedBases(w, source, bases[..i + 1], envS, stack),
                  BasesSpoilNothing(w, f, source, t, bases[..i + 1], with, keeps, spoiled, stack), tell)
  {
    NextBase(w, f, source, bases, i, with, stack);
    NextNested(w, source, bases, i, envS, stack);
    NextSpoilsNothing(w, f, source, t, bases, i, with, keeps, spoiled, stack);
    ExactConcat(w, f, env, FlattenedBases(w, f, source, bases[..i], with, stack),
                FlattenedBase(w, f, source, bases[i], with, stack),
                NestedBases(w, source, bases[..i], envS, stack), NestedBase(w, source, bases[i], envS, stack),
                BasesSpoilNothing(w, f, source, t, bases[..i], with, keeps, spoiled, stack),
                BaseSpoilsNothing(w, f, source, bases[i], with, keeps, spoiled, stack), tell);
  }

  lemma {:induction false} BaseExact(w: World, f: string, env: Env, families: set<string>, source: string, t: string,
                                     i: nat, with: Bindings, envS: Env, keeps: bool, spoiled: set<string>, tell: bool,
                                     stack: set<Reached>)
    requires Ready(w, families) && "" !in families && source in families && FillsOne(w, f, env, families, tell)
    requires Sees(w, f, env, source, t, with, envS, keeps, spoiled, families, tell)
    requires t in Types(w, source) && i < |Types(w, source)[t].bases|
    ensures var base := Types(w, source)[t].bases[i];
            Exact(w, f, env, FlattenedBase(w, f, source, base, with, stack), NestedBase(w, source, base, envS, stack),
                  BaseSpoilsNothing(w, f, source, base, with, keeps, spoiled, stack), tell)
    decreases AllTypes(w) - stack, 2, 0
  {
    var base := Types(w, source)[t].bases[i];
    assert TypeReady(w, families, source, t) && EdgeReady(w, families, source, base);
    match BaseOf(w, source, base)
    case None =>
    case Some((owner, p)) =>
      if IsRecord(Types(w, owner)[p]) {
        var uses, bound := Uses(w, source, t), BindArguments(w, f, base.with, source, with);
        assert EdgeChecked(w, source, uses, base);
        EdgeDenotes(w, f, env, source, with, envS, uses, keeps, spoiled, families, tell, base.with, owner,
          Uses(w, owner, p));
        PathsExact(w, f, env, families, owner, p, bound, DenoteBindings(w, source, envS, base.with),
                   Keeps(w, f, owner, bound), SpoiledBy(w, source, base.with, Uses(w, owner, p), keeps, spoiled), tell,
                     stack);
      }
  }

  // ---- Over every filling of the record's scope.

  lemma {:induction false} LongName(names: set<string>) returns (long: string)
    ensures forall n <- names :: |n| <= |long|
    decreases |names|
  {
    long := "";
    if names != {} {
      var n :| n in names;
      var rest := LongName(names - {n});
      long := rest + n;
    }
  }

  // A filling by which nothing but the caller's one family parameter passes for it.
  lemma {:induction false} TellingEnvironment(w: World, families: set<string>, f: string, t: string) returns (env: Env)
    requires FamilyAccepted(w, f) && t in Types(w, f)
    ensures FillsScope(Scope(w, f, t), env) && FillsOne(w, f, env, families, true)
  {
    var long := LongName(families);
    var q := if |FamilyParameters(w, f)| == 1 then FamilyParameters(w, f)[0] else "";
    env := Telling(Scope(w, f, t), q, long);
    TellingFills(Scope(w, f, t), q, long);
    if |FamilyParameters(w, f)| == 1 {
      OneIsInScope(w, f, t);
      assert env[q] == FamilyValue(long + "+") && |long + "+"| > |long|;
    }
  }

  lemma {:induction false} FillingIsAsked(w: World, families: set<string>, f: string, name: string, env: Env)
    requires Accepted(w, families) && f in families && name in Types(w, f) && FillsScope(Scope(w, f, name), env)
    ensures Asked(w, f, env, f, map[], env, Uses(w, f, name), true, {}) && FillsOne(w, f, env, families, false)
  {
    AcceptedIsSettled(w, families);
    var scope := Scope(w, f, name);
    assert FamilyAccepted(w, f) && TypeAccepted(w, f, name);
    NamesConcat(ParametersOf(w, f), Types(w, f)[name].parameters);
    forall use | use in Uses(w, f, name)
      ensures use.parameter in env && (env[use.parameter].FamilyValue? <==> use.drawn != "")
    {
      DeclaredName(scope, use.parameter, use.drawn != "");
      OneSort(scope, use.parameter);
    }
    if |FamilyParameters(w, f)| == 1 { OneIsInScope(w, f, name); }
  }

  lemma NamesConcat(a: seq<Parameter>, b: seq<Parameter>)
    ensures Names(a + b) == Names(a) + Names(b)
  {
  }

  lemma {:induction false} FilledIsExact(w: World, families: set<string>, f: string, name: string, env: Env, tell: bool)
    requires Accepted(w, families) && f in families && name in Types(w, f) && FillsScope(Scope(w, f, name), env)
    requires FillsOne(w, f, env, families, tell)
    ensures Exact(w, f, env, Flattened(w, f, f, name, map[], {}), Nested(w, f, name, env, {}),
                  NothingSpoils(w, f, f, name, map[], true, {}, {}), tell)
  {
    AcceptedIsReady(w, families);
    FillingIsAsked(w, families, f, name, env);
    PathsExact(w, f, env, families, f, name, map[], env, true, {}, tell, {});
  }

  // The fields mean, whatever fills the record's scope, what nested evaluation gives.
  ghost predicate MeansNested(w: World, f: string, name: string, fields: seq<FieldAt>)
    requires name in Types(w, f)
  {
    forall env | FillsScope(Scope(w, f, name), env) :: Meaning(w, f, env, fields) == Nested(w, f, name, env, {})
  }

  /** In accepted families the fields of a record, flattened, mean under every filling of its scope
      what nested evaluation gives if and only if nothing spoils on the way. */
  lemma {:induction false} FlatteningMeansNestedIff(w: World, families: set<string>, f: string, name: string)
    requires Accepted(w, families) && f in families && name in Types(w, f)
    ensures MeansNested(w, f, name, Flattened(w, f, f, name, map[], {})) <==>
            NothingSpoils(w, f, f, name, map[], true, {}, {})
  {
    if NothingSpoils(w, f, f, name, map[], true, {}, {}) {
      forall env | FillsScope(Scope(w, f, name), env)
        ensures Meaning(w, f, env, Flattened(w, f, f, name, map[], {})) == Nested(w, f, name, env, {})
      {
        FillingIsAsked(w, families, f, name, env);
        FilledIsExact(w, families, f, name, env, false);
      }
    } else {
      assert FamilyAccepted(w, f);
      var env := TellingEnvironment(w, families, f, name);
      FilledIsExact(w, families, f, name, env, true);
    }
  }

  // ---- The walk.

  class FieldWalk {
    const world: World
    const family: string
    var stack: set<Reached>
    var fields: seq<FieldAt>

    constructor (world: World, family: string)
      ensures this.world == world && this.family == family && stack == {} && fields == []
    {
      this.world, this.family, stack, fields := world, family, {}, [];
    }

    method Walk(source: string, t: string, bindings: Bindings)
      modifies this
      ensures stack == old(stack)
      ensures fields == old(fields) + Flattened(world, family, source, t, bindings, old(stack))
      decreases AllTypes(world) - stack, 0
    {
      if t !in Types(world, source) || (source, t) in stack {
        return;
      }
      assert (source, t) in AllTypes(world);
      stack := stack + {(source, t)};
      WalkBases(source, t, bindings);
      AddOwn(source, t, bindings);
      stack := stack - {(source, t)};
      assert stack == old(stack);
    }

    method WalkBases(source: string, t: string, bindings: Bindings)
      requires t in Types(world, source)
      modifies this
      ensures stack == old(stack)
      ensures fields ==
              old(fields) + FlattenedBases(world, family, source, Types(world, source)[t].bases, bindings, old(stack))
      decreases AllTypes(world) - stack, 2
    {
      var bases := Types(world, source)[t].bases;
      for i := 0 to |bases|
        invariant stack == old(stack)
        invariant fields == old(fields) + FlattenedBases(world, family, source, bases[..i], bindings, old(stack))
      {
        WalkBase(source, bases[i], bindings);
        NextBase(world, family, source, bases, i, bindings, stack);
      }
      assert bases[..|bases|] == bases;
    }

    method WalkBase(source: string, base: Base, bindings: Bindings)
      modifies this
      ensures stack == old(stack)
      ensures fields == old(fields) + FlattenedBase(world, family, source, base, bindings, old(stack))
      decreases AllTypes(world) - stack, 1
    {
      match BaseOf(world, source, base) {
        case None =>
        case Some((owner, p)) =>
          if IsRecord(Types(world, owner)[p]) {
            Walk(owner, p, BindArguments(world, family, base.with, source, bindings));
          }
      }
    }

    method AddOwn(source: string, t: string, bindings: Bindings)
      requires t in Types(world, source)
      modifies this`fields
      ensures fields == old(fields) + BoundOwn(world, family, source, t, Types(world, source)[t].fields, bindings)
    {
      var own := Types(world, source)[t].fields;
      for i := 0 to |own|
        invariant fields == old(fields) + BoundOwn(world, family, source, t, own, bindings)[..i]
      {
        var bound := BindExpression(world, family, own[i].typ, source, bindings);
        fields := fields + [FieldAt(t, i, own[i].(typ := bound), source)];
      }
    }
  }

  /** A record's flattened fields. In accepted families they mean what nested evaluation along
      each inheritance path gives, under every filling of the record's scope, if and only if
      nothing spoils on the way. */
  method FlattenedFields(world: World, family: string, name: string, ghost families: set<string>)
    returns (fields: seq<FieldAt>)
    ensures fields == Flattened(world, family, family, name, map[], {})
    ensures Accepted(world, families) && family in families && name in Types(world, family) ==>
              (MeansNested(world, family, name, fields) <==>
                NothingSpoils(world, family, family, name, map[], true, {}, {}))
  {
    var walk := new FieldWalk(world, family);
    walk.Walk(family, name, map[]);
    fields := walk.fields;
    if Accepted(world, families) && family in families && name in Types(world, family) {
      FlatteningMeansNestedIff(world, families, family, name);
    }
  }
}
