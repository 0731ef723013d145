/**
 Along an inheritance path: what the declarations say of where bindings and environments
 part, and that they part nowhere else.
 */
module DeclarationPaths {
  import opened DeclarationModel
  import opened DeclarationBinding
  import opened DeclarationSubstitution
  import opened DeclarationAgreement
  import opened DeclarationFields
  import opened DeclarationInference
  import opened Wrappers

  // ---- On the declarations alone.

  // What a plain import infers where it is written is what it infers for the caller.
  predicate Keeps(w: World, f: string, source: string, with: Bindings) {
    NeitherInfers(w, f, source, with) || HandsFamilyOn(w, f, source, with)
  }

  // An expression sees a spoiled parameter, or imports plainly what is not kept.
  predicate Spoils(w: World, source: string, e: Expr, keeps: bool, spoiled: set<string>) {
    Seen(w, source, e) * spoiled != {} || !(keeps || PlainFree(w, source, e))
  }

  // The parameters of a base that an edge fills with what spoils.
  function SpoiledBy(w: World, source: string, arguments: Bindings, wanted: set<Use>, keeps: bool,
                     spoiled: set<string>): set<string> {
    set use | use in wanted && use.drawn == "" && use.parameter in arguments
              && Spoils(w, source, arguments[use.parameter].typ, keeps, spoiled) :: use.parameter
  }

  /** No field the walk reaches spoils: none sees, plainly or through what edges filled, an import
      whose family is not handed on. */
  ghost predicate NothingSpoils(w: World, f: string, source: string, t: string, with: Bindings, keeps: bool,
                                spoiled: set<string>, stack: set<Reached>)
    decreases AllTypes(w) - stack, 1, 0
  {
    t in Types(w, source) && (source, t) !in stack ==>
      assert (source, t) in AllTypes(w);
      var d := Types(w, source)[t];
      && BasesSpoilNothing(w, f, source, t, d.bases, with, keeps, spoiled, stack + {(source, t)})
      && forall i :: 0 <= i < |d.fields| ==> !Spoils(w, source, d.fields[i].typ, keeps, spoiled)
  }

  ghost predicate BasesSpoilNothing(w: World, f: string, source: string, t: string, bases: seq<Base>, with: Bindings,
                                    keeps: bool, spoiled: set<string>, stack: set<Reached>)
    decreases AllTypes(w) - stack, 2, |bases|
  {
    bases != [] ==>
      && BasesSpoilNothing(w, f, source, t, bases[..|bases| - 1], with, keeps, spoiled, stack)
      && BaseSpoilsNothing(w, f, source, bases[|bases| - 1], with, keeps, spoiled, stack)
  }

  lemma NextSpoilsNothing(w: World, f: string, source: string, t: string, bases: seq<Base>, i: nat, with: Bindings,
                          keeps: bool, spoiled: set<string>, stack: set<Reached>)
    requires i < |bases|
    ensures BasesSpoilNothing(w, f, source, t, bases[..i + 1], with, keeps, spoiled, stack) <==>
            BasesSpoilNothing(w, f, source, t, bases[..i], with, keeps, spoiled, stack)
            && BaseSpoilsNothing(w, f, source, bases[i], with, keeps, spoiled, stack)
  {
    assert bases[..i + 1][..i] == bases[..i];
  }

  ghost predicate BaseSpoilsNothing(w: World, f: string, source: string, base: Base, with: Bindings, keeps: bool,
                                    spoiled: set<string>, stack: set<Reached>)
    decreases AllTypes(w) - stack, 2, 0
  {
    match BaseOf(w, source, base)
    case None => true
    case Some((owner, t)) =>
      var bound := BindArguments(w, f, base.with, source, with);
      IsRecord(Types(w, owner)[t]) ==>
        NothingSpoils(w, f, owner, t, bound, Keeps(w, f, owner, bound),
                      SpoiledBy(w, source, base.with, Uses(w, owner, t), keeps, spoiled), stack)
  }

  // ---- Edge by edge.

  // Whatever is reached hands its family's one family parameter on to its bases, and reaches them.
  ghost predicate AllHandOn(w: World, reached: set<Reached>) {
    forall at <- reached | at.1 in Types(w, at.0) ::
      forall base | base in Types(w, at.0)[at.1].bases && BaseOf(w, at.0, base).Some? ::
        var to := BaseOf(w, at.0, base).value;
        IsRecord(Types(w, to.0)[to.1]) ==> to in reached && HandsFamilyOn(w, at.0, to.0, base.with)
  }

  // The bindings composed so far are none, or hand the caller's own parameter on.
  predicate HandedTo(w: World, f: string, source: string, with: Bindings) {
    (source == f && with == map[]) || HandsFamilyOn(w, f, source, with)
  }

  lemma HandsOnThrough(w: World, f: string, source: string, with: Bindings, owner: string, arguments: Bindings)
    requires HandedTo(w, f, source, with) && HandsFamilyOn(w, source, owner, arguments)
    ensures HandsFamilyOn(w, f, owner, BindArguments(w, f, arguments, source, with))
  {
    var p, q := FamilyParameters(w, owner)[0], FamilyParameters(w, source)[0];
    assert p in BindArguments(w, f, arguments, source, with);
    if with == map[] {
      var none: Bindings := map[];
      assert Held(Uses(w, f, q), {}, none) == map[];
      if q in Types(w, f) { NamedIsBoundTo(w, f, q, f, none); }
      assert BindExpression(w, f, Named(q), f, none) == Named(q);
    }
  }

  /** If along every path the family parameter is handed on edge by edge, nothing spoils. */
  lemma {:induction false} HandedOnSpoilsNothing(w: World, f: string, source: string, t: string, with: Bindings,
                                                 stack: set<Reached>, reached: set<Reached>)
    requires AllHandOn(w, reached) && (source, t) in reached && HandedTo(w, f, source, with)
    ensures NothingSpoils(w, f, source, t, with, true, {}, stack)
    decreases AllTypes(w) - stack, 1, 0
  {
    if t in Types(w, source) && (source, t) !in stack {
      assert (source, t) in AllTypes(w);
      var bases := Types(w, source)[t].bases;
      HandedOnBases(w, f, source, t, |bases|, with, stack + {(source, t)}, reached);
      assert bases[..|bases|] == bases;
    }
  }

  lemma {:induction false} HandedOnBases(w: World, f: string, source: string, t: string, n: nat, with: Bindings,
                                         stack: set<Reached>, reached: set<Reached>)
    requires AllHandOn(w, reached) && (source, t) in reached && HandedTo(w, f, source, with)
    requires t in Types(w, source) && n <= |Types(w, source)[t].bases|
    ensures BasesSpoilNothing(w, f, source, t, Types(w, source)[t].bases[..n], with, true, {}, stack)
    decreases AllTypes(w) - stack, 2, n
  {
    var bases := Types(w, source)[t].bases;
    if n > 0 {
      HandedOnBases(w, f, source, t, n - 1, with, stack, reached);
      var base := bases[n - 1];
      assert base in bases;
      if BaseOf(w, source, base).Some? {
        var (owner, p) := BaseOf(w, source, base).value;
        if IsRecord(Types(w, owner)[p]) {
          var bound := BindArguments(w, f, base.with, source, with);
          HandsOnThrough(w, f, source, with, owner, base.with);
          assert SpoiledBy(w, source, base.with, Uses(w, owner, p), true, {}) == {};
          HandedOnSpoilsNothing(w, f, owner, p, bound, stack, reached);
        }
      }
      NextSpoilsNothing(w, f, source, t, bases, n - 1, with, true, {}, stack);
    }
  }

  // ---- The two scopes at a type the walk reaches.

  // Families to fill parameters with, but for one kept aside to tell the caller's own by.
  predicate NamesOf(families: set<string>, with: Bindings) {
    forall p <- with :: with[p].family == "" || with[p].family in families
  }

  // The caller's one family parameter is filled, and if need be so that nothing else passes for it.
  ghost predicate FillsOne(w: World, f: string, env: Env, families: set<string>, tell: bool) {
    |FamilyParameters(w, f)| == 1 ==>
      var q := FamilyParameters(w, f)[0];
      && q in env
      && (tell ==>
         env[q].FamilyValue? && env[q].family !in families && forall n | n in env && n != q :: env[n] != env[q])
  }

  // What types fill agrees where nothing spoiled it; and if all is to be told, only there.
  ghost predicate TypesAgree(w: World, f: string, env: Env, with: Bindings, envS: Env, uses: set<Use>,
                             spoiled: set<string>, tell: bool) {
    forall use | use in uses && use.drawn == "" ::
      && (use.parameter !in spoiled ==> Agrees(w, f, env, with, envS, use.parameter))
      && (tell && use.parameter in spoiled ==> !Agrees(w, f, env, with, envS, use.parameter))
  }

  predicate OnlyTypes(uses: set<Use>, spoiled: set<string>) { forall use <- uses :: use.drawn != "" ==>
    use.parameter !in spoiled }

  // The caller's view of a base it has bound.
  ghost predicate Viewed(w: World, f: string, env: Env, source: string, with: Bindings, envS: Env, uses: set<Use>,
                         keeps: bool, spoiled: set<string>, families: set<string>, tell: bool) {
    && Paired(w, f, env, source, with, envS, uses) && FamiliesAgree(w, f, env, with, envS, uses)
    && TypesAgree(w, f, env, with, envS, uses, spoiled, tell) && OnlyTypes(uses, spoiled)
    && keeps == Keeps(w, f, source, with) && NamesOf(families, with)
  }

  // The caller's view of the type it asked for, in its own scope.
  ghost predicate Asked(w: World, f: string, env: Env, source: string, with: Bindings, envS: Env, uses: set<Use>,
                        keeps: bool, spoiled: set<string>) {
    && f != "" && source == f && with == map[] && envS == env && keeps && spoiled == {}
    && Apart(w, f, env) && Sorted(env, uses)
  }

  ghost predicate View(w: World, f: string, env: Env, source: string, with: Bindings, envS: Env, uses: set<Use>,
                       keeps: bool, spoiled: set<string>, families: set<string>, tell: bool) {
    || Asked(w, f, env, source, with, envS, uses, keeps, spoiled)
    || Viewed(w, f, env, source, with, envS, uses, keeps, spoiled, families, tell)
  }

  // ---- Plain imports.

  // A plain import that infers makes its family's one family parameter used.
  lemma {:induction false} PlainIsUsed(w: World, family: string, uses: set<Use>, e: Expr) returns (use: Use)
    requires Within(w, family, uses, e) && !PlainFree(w, family, e) && |FamilyParameters(w, family)| == 1
    ensures use in uses && use.parameter == FamilyParameters(w, family)[0] && use.drawn != ""
    decreases e
  {
    match e
    case Imported(from, x) =>
      var slot :| slot in Uses(w, from, x) && slot.drawn != "";
      use := Use(FamilyParameters(w, family)[0], slot.drawn);
    case Array(items) => use := PlainIsUsed(w, family, uses, items);
    case Map(values) => use := PlainIsUsed(w, family, uses, values);
    case Nullable(inner) => use := PlainIsUsed(w, family, uses, inner);
    case Apply(from, x, with) =>
      var slot :| slot in Uses(w, if from == "" then family else from, x) && slot.parameter in with
                  && with[slot.parameter].family == "" && !PlainFree(w, family, with[slot.parameter].typ);
      use := PlainIsUsed(w, family, uses, with[slot.parameter].typ);
    case Inline(_, _, fields, variants) =>
      if i :| 0 <= i < |fields| && !PlainFree(w, family, fields[i].typ) {
        use := PlainIsUsed(w, family, uses, fields[i].typ);
      } else {
        var j :| 0 <= j < |variants| && !PlainFree(w, family, variants[j].typ);
        use := PlainIsUsed(w, family, uses, variants[j].typ);
      }
    case _ =>
  }

  lemma KeepsInfers(w: World, f: string, env: Env, source: string, with: Bindings, envS: Env, uses: set<Use>,
                    spoiled: set<string>, families: set<string>, tell: bool, use: Use)
    requires Viewed(w, f, env, source, with, envS, uses, Keeps(w, f, source, with), spoiled, families, tell)
    requires FillsOne(w, f, env, families, tell)
    requires |FamilyParameters(w, source)| == 1 ==>
               use in uses && use.parameter == FamilyParameters(w, source)[0] && use.drawn != ""
    ensures Keeps(w, f, source, with) ==> OneFamily(w, f, env) == OneFamily(w, source, envS)
    ensures tell && !Keeps(w, f, source, with) ==> OneFamily(w, f, env) != OneFamily(w, source, envS)
  {
    if |FamilyParameters(w, source)| == 1 {
      assert Agrees(w, f, env, with, envS, use.parameter);
      assert OneFamily(w, source, envS) == [DenoteFiller(w, f, env, with[use.parameter])];
    }
  }

  lemma {:induction false} ImportsAreKept(w: World, f: string, env: Env, source: string, with: Bindings, envS: Env,
                                          uses: set<Use>, keeps: bool, spoiled: set<string>, families: set<string>,
                                          tell: bool, e: Expr)
    requires Viewed(w, f, env, source, with, envS, uses, keeps, spoiled, families, tell)
    requires FillsOne(w, f, env, families, tell) && Within(w, source, uses, e)
    ensures keeps || PlainFree(w, source, e) ==> InfersAlike(w, f, env, source, envS, e)
    ensures tell && InfersAlike(w, f, env, source, envS, e) ==> keeps || PlainFree(w, source, e)
  {
    if !PlainFree(w, source, e) {
      var use := Use("", "");
      if |FamilyParameters(w, source)| == 1 { use := PlainIsUsed(w, source, uses, e); }
      KeepsInfers(w, f, env, source, with, envS, uses, spoiled, families, tell, use);
    }
  }

  // ---- One expression.

  lemma {:induction false} SeenIsUsed(w: World, family: string, uses: set<Use>, e: Expr)
    requires Within(w, family, uses, e) && Parameters(uses) !! Types(w, family).Keys
    ensures Seen(w, family, e) <= Parameters(uses)
    decreases e
  {
    match e
    case Named(x) => if Use(x, "") in uses { assert x in Parameters(uses); }
    case Array(items) => SeenIsUsed(w, family, uses, items);
    case Map(values) => SeenIsUsed(w, family, uses, values);
    case Nullable(inner) => SeenIsUsed(w, family, uses, inner);
    case Apply(from, x, with) =>
      forall use | use in Uses(w, if from == "" then family else from, x)
        ensures if use.parameter in with then SeenFiller(w, family, with[use.parameter]) <= Parameters(uses)
                else from == "" && use.parameter in Parameters(uses)
      {
        if use.parameter in with && with[use.parameter].family == "" {
          if use.drawn == "" { SeenIsUsed(w, family, uses, with[use.parameter].typ); }
          else { FamilySeen(w, family, uses, with[use.parameter], use.drawn); }
        }
      }
    case Inline(_, _, fields, variants) =>
      forall m | m in fields + variants ensures Seen(w, family, m.typ) <= Parameters(uses) {
        MemberSeen(w, family, uses, e, m);
        SeenIsUsed(w, family, uses, m.typ);
      }
      InlineSeen(w, family, e, Parameters(uses));
    case _ =>
  }

  lemma FamilySeen(w: World, family: string, uses: set<Use>, filler: Filler, drawn: string)
    requires drawn != "" && Suits(w, family, uses, filler, drawn) && Parameters(uses) !! Types(w, family).Keys
    ensures SeenFiller(w, family, filler) <= Parameters(uses)
  {
    if filler.family == "" { assert filler.typ.named in Parameters(uses); }
  }

  lemma InlineSeen(w: World, family: string, e: Expr, names: set<string>)
    requires e.Inline? && forall m | m in e.fields + e.variants :: Seen(w, family, m.typ) <= names
    ensures Seen(w, family, e) <= names
  {
    forall i | 0 <= i < |e.fields| ensures Seen(w, family, e.fields[i].typ) <= names {
      assert e.fields[i] in e.fields + e.variants;
    }
    forall i | 0 <= i < |e.variants| ensures Seen(w, family, e.variants[i].typ) <= names {
      assert e.variants[i] in e.fields + e.variants;
    }
  }

  /** An expression that does not spoil has all it holds agree, and if all is to be told, only then. */
  lemma {:induction false} SpoilsOrHolds(w: World, f: string, env: Env, source: string, with: Bindings, envS: Env,
                                         uses: set<Use>, keeps: bool, spoiled: set<string>, families: set<string>,
                                         tell: bool, e: Expr)
    requires Viewed(w, f, env, source, with, envS, uses, keeps, spoiled, families, tell)
    requires FillsOne(w, f, env, families, tell) && Within(w, source, uses, e)
    ensures !Spoils(w, source, e, keeps, spoiled) ==> Holds(w, f, env, e, source, with, envS)
    ensures tell && Holds(w, f, env, e, source, with, envS) ==> !Spoils(w, source, e, keeps, spoiled)
  {
    UsesAreNoTypes(w, source, with, uses);
    SeenIsUsed(w, source, uses, e);
    ImportsAreKept(w, f, env, source, with, envS, uses, keeps, spoiled, families, tell, e);
    forall p | p in Seen(w, source, e)
      ensures p !in spoiled ==> Agrees(w, f, env, with, envS, p)
      ensures tell && Agrees(w, f, env, with, envS, p) ==> p !in spoiled
    {
      var use :| use in uses && use.parameter == p;
    }
    assert forall p <- Seen(w, source, e) :: p in spoiled <==> p in Seen(w, source, e) * spoiled;
  }

  /** A field as the walk gives it means what it does in its own record's environment, unless it
      spoils; and if all is to be told, only then. */
  lemma {:induction false} FieldDenotes(w: World, f: string, env: Env, source: string, with: Bindings, envS: Env,
                                        uses: set<Use>, keeps: bool, spoiled: set<string>, families: set<string>,
                                        tell: bool, e: Expr)
    requires View(w, f, env, source, with, envS, uses, keeps, spoiled, families, tell)
    requires FillsOne(w, f, env, families, tell) && Within(w, source, uses, e)
    ensures !Spoils(w, source, e, keeps, spoiled) ==> Alike(w, f, env, e, source, with, envS)
    ensures tell && Alike(w, f, env, e, source, with, envS) ==> !Spoils(w, source, e, keeps, spoiled)
  {
    if Asked(w, f, env, source, with, envS, uses, keeps, spoiled) {
      RebindingDenotes(w, f, env, e);
    } else {
      SpoilsOrHolds(w, f, env, source, with, envS, uses, keeps, spoiled, families, tell, e);
      AlikeIffHolds(w, f, env, e, source, with, envS, uses);
    }
  }

  // ---- One edge.

  // A filler where it is written has the sort of its slot.
  lemma FillerSorted(w: World, source: string, envS: Env, filler: Filler, uses: set<Use>, drawn: string)
    requires Suits(w, source, uses, filler, drawn) && Sorted(envS, uses) && Apart(w, source, envS)
    ensures DenoteFiller(w, source, envS, filler).FamilyValue? <==> drawn != ""
  {
    if filler.family == "" && drawn != "" { assert Use(filler.typ.named, drawn) in uses; }
    if filler.family == "" && drawn == "" && filler.typ.Named? && Use(filler.typ.named, "") in uses {
      assert !envS[filler.typ.named].FamilyValue?;
    }
  }

  // And so it has for the caller.
  lemma {:induction false} BoundFillerSorted(w: World, f: string, env: Env, source: string, with: Bindings, envS: Env,
                                             uses: set<Use>, filler: Filler, drawn: string)
    requires Paired(w, f, env, source, with, envS, uses) && Suits(w, source, uses, filler, drawn)
    ensures DenoteFiller(w, f, env, BindFiller(w, f, filler, source, with)).FamilyValue? <==> drawn != ""
  {
    if filler.family != "" {
    } else if filler.typ.Named? && Use(filler.typ.named, drawn) in uses {
      assert BindFiller(w, f, filler, source, with) == with[filler.typ.named];
    } else {
      assert drawn == "" && FillerName(filler) !in with;
      BoundIsNoParameter(w, f, env, filler.typ, source, with, envS, uses);
    }
  }

  // What a family fills agrees beyond an edge as it did before.
  lemma FamilyHandedOn(w: World, f: string, env: Env, source: string, with: Bindings, envS: Env, uses: set<Use>,
                       filler: Filler, drawn: string)
    requires Paired(w, f, env, source, with, envS, uses) && FamiliesAgree(w, f, env, with, envS, uses)
    requires drawn != "" && Suits(w, source, uses, filler, drawn)
    ensures FillerAlike(w, f, env, filler, source, with, envS)
  {
    if filler.family == "" { assert Agrees(w, f, env, with, envS, filler.typ.named); }
  }

  // An argument for one use of a base: of its sort on both sides, and alike unless it spoils.
  ghost predicate Passed(w: World, f: string, env: Env, source: string, with: Bindings, envS: Env, keeps: bool,
                         spoiled: set<string>, tell: bool, arguments: Bindings, use: Use) {
    use.parameter in arguments
    && var filler := arguments[use.parameter];
    && (DenoteFiller(w, source, envS, filler).FamilyValue? <==> use.drawn != "")
    && (DenoteFiller(w, f, env, BindFiller(w, f, filler, source, with)).FamilyValue? <==> use.drawn != "")
    && (use.drawn != "" || !Spoils(w, source, filler.typ, keeps, spoiled) ==>
       FillerAlike(w, f, env, filler, source, with, envS))
    && (use.drawn == "" && tell && FillerAlike(w, f, env, filler, source, with, envS) ==>
       !Spoils(w, source, filler.typ, keeps, spoiled))
  }

  lemma {:induction false} ArgumentPassed(w: World, f: string, env: Env, source: string, with: Bindings, envS: Env,
                                          uses: set<Use>, keeps: bool, spoiled: set<string>, families: set<string>,
                                          tell: bool, arguments: Bindings, use: Use)
    requires View(w, f, env, source, with, envS, uses, keeps, spoiled, families, tell)
    requires FillsOne(w, f, env, families, tell)
    requires use.parameter in arguments && Suits(w, source, uses, arguments[use.parameter], use.drawn)
    ensures Passed(w, f, env, source, with, envS, keeps, spoiled, tell, arguments, use)
  {
    var filler := arguments[use.parameter];
    FillerSorted(w, source, envS, filler, uses, use.drawn);
    if Asked(w, f, env, source, with, envS, uses, keeps, spoiled) {
      RebindingFillerDenotes(w, f, env, filler);
    } else {
      BoundFillerSorted(w, f, env, source, with, envS, uses, filler, use.drawn);
      if use.drawn != "" {
        FamilyHandedOn(w, f, env, source, with, envS, uses, filler, use.drawn);
      } else {
        SpoilsOrHolds(w, f, env, source, with, envS, uses, keeps, spoiled, families, tell, filler.typ);
        FillerAlikeIffHolds(w, f, env, filler, source, with, envS, uses);
      }
    }
  }

  // One parameter is used by types or by families, not by both.
  lemma PassedOnce(w: World, f: string, env: Env, source: string, with: Bindings, envS: Env, keeps: bool,
                   spoiled: set<string>, tell: bool, arguments: Bindings, wanted: set<Use>)
    requires forall use <- wanted :: Passed(w, f, env, source, with, envS, keeps, spoiled, tell, arguments, use)
    ensures var bound, envB := BindArguments(w, f, arguments, source, with), DenoteBindings(w, source, envS, arguments);
            && SortedBindings(w, f, env, bound, wanted) && Sorted(envB, wanted)
            && FamiliesAgree(w, f, env, bound, envB, wanted)
            && TypesAgree(w, f, env, bound, envB, wanted, SpoiledBy(w, source, arguments, wanted, keeps, spoiled), tell)
            && OnlyTypes(wanted, SpoiledBy(w, source, arguments, wanted, keeps, spoiled))
  {
    var bound, envB := BindArguments(w, f, arguments, source, with), DenoteBindings(w, source, envS, arguments);
    assert bound.Keys == arguments.Keys && envB.Keys == arguments.Keys;
    var now := SpoiledBy(w, source, arguments, wanted, keeps, spoiled);
    forall use | use in wanted
      ensures Agrees(w, f, env, bound, envB, use.parameter) <==>
              FillerAlike(w, f, env, arguments[use.parameter], source, with, envS)
      ensures use.drawn == "" ==>
              (use.parameter in now <==> Spoils(w, source, arguments[use.parameter].typ, keeps, spoiled))
      ensures use.drawn != "" ==> use.parameter !in now
    {
      assert Passed(w, f, env, source, with, envS, keeps, spoiled, tell, arguments, use);
      if other :| other in wanted && other.drawn == "" && other.parameter == use.parameter {
        assert Passed(w, f, env, source, with, envS, keeps, spoiled, tell, arguments, other);
      }
    }
  }

  lemma NamesHandedOn(w: World, f: string, arguments: Bindings, source: string, with: Bindings, families: set<string>)
    requires NamesOf(families, arguments) && NamesOf(families, with)
    ensures NamesOf(families, BindArguments(w, f, arguments, source, with))
  {
  }

  /** The bindings an edge hands on fit its base, and agree with what the edge's arguments denote
      where they are written except where those spoil. */
  lemma {:induction false} EdgeDenotes(w: World, f: string, env: Env, source: string, with: Bindings, envS: Env,
                                       uses: set<Use>, keeps: bool, spoiled: set<string>, families: set<string>,
                                       tell: bool, arguments: Bindings, owner: string, wanted: set<Use>)
    requires View(w, f, env, source, with, envS, uses, keeps, spoiled, families, tell)
    requires FillsOne(w, f, env, families, tell) && owner != "" && (forall p <- Parameters(uses) :: p != "")
    requires ArgumentsSuit(w, source, uses, arguments, owner, wanted) && NamesOf(families, arguments)
    ensures var bound := BindArguments(w, f, arguments, source, with);
            Viewed(w, f, env, owner, bound, DenoteBindings(w, source, envS, arguments), wanted,
              Keeps(w, f, owner, bound),
                   SpoiledBy(w, source, arguments, wanted, keeps, spoiled), families, tell)
  {
    if Asked(w, f, env, source, with, envS, uses, keeps, spoiled) {
      RootFits(w, f, arguments, uses, owner, wanted);
    } else {
      BoundFits(w, f, arguments, source, with, uses, owner, wanted);
    }
    NamesHandedOn(w, f, arguments, source, with, families);
    forall use | use in wanted
      ensures Passed(w, f, env, source, with, envS, keeps, spoiled, tell, arguments, use)
    {
      ArgumentPassed(w, f, env, source, with, envS, uses, keeps, spoiled, families, tell, arguments, use);
    }
    PassedOnce(w, f, env, source, with, envS, keeps, spoiled, tell, arguments, wanted);
    assert DenoteBindings(w, source, envS, arguments).Keys == arguments.Keys;
  }
}
