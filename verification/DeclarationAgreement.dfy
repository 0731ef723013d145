/**
 The other half of substitution. An expression sees the parameters in scope whose fillings its
 meaning holds: those it names, and those seen in an argument that is used where it is handed on.
 In two scopes that agree on what families fill, a bound expression means the same in both if
 and only if each parameter seen is filled alike and each plain import it holds infers alike.
 */
module DeclarationAgreement {
  import opened DeclarationModel
  import opened DeclarationBinding
  import opened DeclarationSubstitution

  // The parameters in scope whose fillings an expression's meaning holds.
  function Seen(w: World, family: string, e: Expr): set<string> {
    match e
    case Named(x) => if x in Types(w, family) then Parameters(Uses(w, family, x)) else {x}
    case Drawn(p, _) => {p}
    case Array(items) => Seen(w, family, items)
    case Map(values) => Seen(w, family, values)
    case Nullable(inner) => Seen(w, family, inner)
    case Apply(from, x, with) =>
      var wanted := Parameters(Uses(w, if from == "" then family else from, x));
      (set p, q | p in with && p in wanted && q in SeenFiller(w, family, with[p]) :: q)
      + if from == "" then wanted - with.Keys else {}
    case Inline(_, _, fields, variants) =>
      (set i, q | 0 <= i < |fields| && q in Seen(w, family, fields[i].typ) :: q)
      + set i, q | 0 <= i < |variants| && q in Seen(w, family, variants[i].typ) :: q
    case _ => {}
  }

  function SeenFiller(w: World, family: string, filler: Filler): set<string> {
    if filler.family != "" then {} else Seen(w, family, filler.typ)
  }

  // Every parameter used is filled by its sort.
  predicate Sorted(env: Env, uses: set<Use>) {
    forall use <- uses :: use.parameter in env && (env[use.parameter].FamilyValue? <==> use.drawn != "")
  }

  ghost predicate SortedBindings(w: World, f: string, env: Env, with: Bindings, uses: set<Use>) {
    forall use <- uses ::
      use.parameter in with && (DenoteFiller(w, f, env, with[use.parameter]).FamilyValue? <==> use.drawn != "")
  }

  ghost predicate Agrees(w: World, f: string, env: Env, with: Bindings, envS: Env, p: string) {
    p in with && p in envS && envS[p] == DenoteFiller(w, f, env, with[p])
  }

  ghost predicate AllAgree(w: World, f: string, env: Env, with: Bindings, envS: Env, seen: set<string>) {
    forall p <- seen :: Agrees(w, f, env, with, envS, p)
  }

  // Two scopes side by side, each parameter of either filled by its sort.
  ghost predicate Paired(w: World, f: string, env: Env, source: string, with: Bindings, envS: Env, uses: set<Use>) {
    && f != "" && source != "" && Apart(w, f, env) && Apart(w, source, envS)
    && Fits(w, source, with, uses) && SortedBindings(w, f, env, with, uses) && Sorted(envS, uses)
  }

  // What an expression holds agrees, plain imports included.
  ghost predicate Holds(w: World, f: string, env: Env, e: Expr, source: string, with: Bindings, envS: Env) {
    AllAgree(w, f, env, with, envS, Seen(w, source, e)) && InfersAlike(w, f, env, source, envS, e)
  }

  // ---- Alike only if all agrees.

  /** An expression bound to mean the same holds nothing that disagrees. */
  lemma {:induction false} AlikeHolds(w: World, f: string, env: Env, e: Expr, source: string, with: Bindings,
                                      envS: Env, uses: set<Use>)
    requires Paired(w, f, env, source, with, envS, uses) && Within(w, source, uses, e)
    requires Alike(w, f, env, e, source, with, envS)
    ensures Holds(w, f, env, e, source, with, envS)
    decreases e, 0
  {
    match e
    case Named(x) => NamedHolds(w, f, env, x, source, with, envS, uses);
    case Imported(from, x) => PlainImportAlikeIff(w, f, env, from, x, source, with, envS);
    case Drawn(p, x) => DrawnHolds(w, f, env, p, x, source, with, envS, uses);
    case Array(items) => AlikeHolds(w, f, env, items, source, with, envS, uses);
    case Map(values) => AlikeHolds(w, f, env, values, source, with, envS, uses);
    case Nullable(inner) => AlikeHolds(w, f, env, inner, source, with, envS, uses);
    case Apply(from, x, arguments) =>
      var wanted := Uses(w, if from == "" then source else from, x);
      ArgumentsAlike(w, f, env, e, source, with, envS, uses);
      forall use | use in wanted && use.parameter in arguments
        ensures FillerHolds(w, f, env, arguments[use.parameter], source, with, envS)
      {
        FillerAlikeHolds(w, f, env, arguments[use.parameter], source, with, envS, uses, use.drawn);
      }
      ApplicationHolds(w, f, env, e, source, with, envS);
    case Inline(_, _, fields, variants) =>
      forall m | m in fields + variants ensures Holds(w, f, env, m.typ, source, with, envS) {
        MemberAlike(w, f, env, e, m, source, with, envS);
        AlikeHolds(w, f, env, m.typ, source, with, envS, uses);
      }
      InlineHolds(w, f, env, e, source, with, envS);
    case _ =>
  }

  ghost predicate FillerHolds(w: World, f: string, env: Env, filler: Filler, source: string, with: Bindings,
                              envS: Env) {
    filler.family == "" ==> Holds(w, f, env, filler.typ, source, with, envS)
  }

  lemma {:induction false} FillerAlikeHolds(w: World, f: string, env: Env, filler: Filler, source: string,
                                            with: Bindings, envS: Env, uses: set<Use>, drawn: string)
    requires Paired(w, f, env, source, with, envS, uses) && Suits(w, source, uses, filler, drawn)
    requires FillerAlike(w, f, env, filler, source, with, envS)
    ensures FillerHolds(w, f, env, filler, source, with, envS)
    decreases filler, 1
  {
    if filler.family != "" {
    } else if filler.typ.Named? && Use(filler.typ.named, drawn) in uses {
    } else {
      assert drawn == "" && Within(w, source, uses, filler.typ);
      assert FillerName(filler) !in with;
      assert !(filler.typ.Named? && filler.typ.named in envS);
      BoundIsNoParameter(w, f, env, filler.typ, source, with, envS, uses);
      AlikeHolds(w, f, env, filler.typ, source, with, envS, uses);
    }
  }

  // What is bound and was no parameter is none for the caller.
  lemma BoundIsNoParameter(w: World, f: string, env: Env, e: Expr, source: string, with: Bindings, envS: Env,
                           uses: set<Use>)
    requires Paired(w, f, env, source, with, envS, uses) && Within(w, source, uses, e)
    requires !(e.Named? && Use(e.named, "") in uses)
    ensures var r := BindExpression(w, f, e, source, with); !(r.Named? && r.named in env)
  {
  }

  lemma NamedHolds(w: World, f: string, env: Env, x: string, source: string, with: Bindings, envS: Env, uses: set<Use>)
    requires Paired(w, f, env, source, with, envS, uses) && Within(w, source, uses, Named(x))
    requires Alike(w, f, env, Named(x), source, with, envS)
    ensures Holds(w, f, env, Named(x), source, with, envS)
  {
    if Use(x, "") in uses {
      RebindingDenotes(w, f, env, with[x].typ);
    } else {
      TypeNameHolds(w, f, env, x, source, with, envS, uses);
    }
  }

  lemma TypeNameHolds(w: World, f: string, env: Env, x: string, source: string, with: Bindings, envS: Env,
                      uses: set<Use>)
    requires Paired(w, f, env, source, with, envS, uses) && x in Types(w, source) && Uses(w, source, x) <= uses
    requires Alike(w, f, env, Named(x), source, with, envS)
    ensures AllAgree(w, f, env, with, envS, Parameters(Uses(w, source, x)))
  {
    var wanted := Uses(w, source, x);
    var bindings := Held(wanted, {}, with);
    NamedIsBoundTo(w, f, x, source, with);
    assert forall use <- wanted :: use.parameter in with && use.parameter in envS;
    if bindings != map[] {
      SourceApplied(w, f, env, source, x, bindings);
      var a, b := Supplied(w, f, env, bindings, wanted), Captured(envS, wanted, {});
      assert a == b;
      forall p | p in Parameters(wanted) ensures Agrees(w, f, env, with, envS, p) {
        assert p in b && a[p] == b[p];
      }
    } else {
      assert forall p <- Parameters(wanted) :: p in bindings;
    }
  }

  lemma DrawnHolds(w: World, f: string, env: Env, p: string, x: string, source: string, with: Bindings, envS: Env,
                   uses: set<Use>)
    requires Paired(w, f, env, source, with, envS, uses) && Within(w, source, uses, Drawn(p, x))
    requires Alike(w, f, env, Drawn(p, x), source, with, envS)
    ensures Agrees(w, f, env, with, envS, p)
  {
    assert Use(p, x) in uses;
  }

  // An application bound to mean the same has every argument that shows do so, and captures alike.
  lemma {:induction false} ArgumentsAlike(w: World, f: string, env: Env, e: Expr, source: string, with: Bindings,
                                          envS: Env, uses: set<Use>)
    requires e.Apply? && Paired(w, f, env, source, with, envS, uses) && Within(w, source, uses, e)
    requires Alike(w, f, env, e, source, with, envS)
    ensures var wanted := Uses(w, if e.applyFamily == "" then source else e.applyFamily, e.applied);
            && (forall p | p in e.with
               && p in Parameters(wanted) :: FillerAlike(w, f, env, e.with[p], source, with, envS))
            && (e.applyFamily == "" ==> AllAgree(w, f, env, with, envS, Parameters(wanted) - e.with.Keys))
  {
    if e.applyFamily == "" {
      LocalAlike(w, f, env, e, source, with, envS, uses);
    } else {
      var wanted, bindings := Uses(w, e.applyFamily, e.applied), BindArguments(w, f, e.with, source, with);
      DenotesApplication(w, f, env, e.applyFamily, e.applied, bindings);
      DenotesApplication(w, source, envS, e.applyFamily, e.applied, e.with);
      SuppliedAlike(w, f, env, e.with, source, with, envS, wanted);
    }
  }

  lemma SuppliedAlike(w: World, f: string, env: Env, arguments: Bindings, source: string, with: Bindings, envS: Env,
                      wanted: set<Use>)
    requires Supplied(w, f, env, BindArguments(w, f, arguments, source, with), wanted) ==
             Supplied(w, source, envS, arguments, wanted)
    ensures forall p | p in arguments
            && p in Parameters(wanted) :: FillerAlike(w, f, env, arguments[p], source, with, envS)
  {
    var a, b := Supplied(w, f, env, BindArguments(w, f, arguments, source, with), wanted),
      Supplied(w, source, envS, arguments, wanted);
    forall p | p in arguments && p in Parameters(wanted)
      ensures FillerAlike(w, f, env, arguments[p], source, with, envS)
    {
      assert p in b && a[p] == b[p];
    }
  }

  lemma {:induction false} LocalAlike(w: World, f: string, env: Env, e: Expr, source: string, with: Bindings,
                                      envS: Env, uses: set<Use>)
    requires e.Apply? && e.applyFamily == ""
    requires Paired(w, f, env, source, with, envS, uses) && Within(w, source, uses, e)
    requires Alike(w, f, env, e, source, with, envS)
    ensures var wanted := Uses(w, source, e.applied);
            && (forall p | p in e.with
               && p in Parameters(wanted) :: FillerAlike(w, f, env, e.with[p], source, with, envS))
            && AllAgree(w, f, env, with, envS, Parameters(wanted) - e.with.Keys)
  {
    var wanted, full := Uses(w, source, e.applied), LocalArguments(w, f, e, source, with);
    LocalIsFull(w, f, e, source, with, uses);
    LocalIsBoundTo(w, f, e, source, with);
    SourceApplied(w, f, env, source, e.applied, full);
    DenotesApplication(w, source, envS, "", e.applied, e.with);
    assert forall use <- wanted :: use.parameter in e.with || use in uses;
    LocalSuppliedAlike(w, f, env, e, source, with, envS, uses);
  }

  lemma LocalIsFull(w: World, f: string, e: Expr, source: string, with: Bindings, uses: set<Use>)
    requires e.Apply? && e.applyFamily == "" && Within(w, source, uses, e) && Fits(w, source, with, uses)
    ensures forall p <- Parameters(Uses(w, source, e.applied)) :: p in LocalArguments(w, f, e, source, with)
  {
    assert BindArguments(w, f, e.with, source, with).Keys == e.with.Keys;
    forall use | use in Uses(w, source, e.applied) ensures use.parameter in LocalArguments(w, f, e, source, with) {
      if use.parameter !in e.with { assert use in uses; }
    }
  }

  lemma LocalSuppliedAlike(w: World, f: string, env: Env, e: Expr, source: string, with: Bindings, envS: Env,
                           uses: set<Use>)
    requires e.Apply? && Fits(w, source, with, uses) && Sorted(envS, uses)
    requires forall use <- Uses(w, source, e.applied) :: use.parameter in e.with || use in uses
    requires var wanted := Uses(w, source, e.applied);
             Supplied(w, f, env, LocalArguments(w, f, e, source, with), wanted) ==
             Captured(envS, wanted, e.with.Keys) + Supplied(w, source, envS, e.with, wanted)
    ensures var wanted := Uses(w, source, e.applied);
            && (forall p | p in e.with
               && p in Parameters(wanted) :: FillerAlike(w, f, env, e.with[p], source, with, envS))
            && AllAgree(w, f, env, with, envS, Parameters(wanted) - e.with.Keys)
  {
    var wanted, full := Uses(w, source, e.applied), LocalArguments(w, f, e, source, with);
    var bindings := BindArguments(w, f, e.with, source, with);
    assert bindings.Keys == e.with.Keys;
    var a, c, s :=
      Supplied(w, f, env, full, wanted), Captured(envS, wanted, e.with.Keys), Supplied(w, source, envS, e.with, wanted);
    forall use | use in wanted
      ensures var p := use.parameter;
              if p in e.with then FillerAlike(w, f, env, e.with[p], source, with, envS)
                else Agrees(w, f, env, with, envS, p)
    {
      var p := use.parameter;
      if p in e.with {
        assert full[p] == bindings[p] && p in s && a[p] == s[p];
      } else {
        assert p in with && full[p] == with[p] && p in c && a[p] == c[p];
      }
    }
  }

  lemma ApplicationHolds(w: World, f: string, env: Env, e: Expr, source: string, with: Bindings, envS: Env)
    requires e.Apply?
    requires var wanted := Uses(w, if e.applyFamily == "" then source else e.applyFamily, e.applied);
             && (forall use | use in wanted && use.parameter in e.with ::
                   FillerHolds(w, f, env, e.with[use.parameter], source, with, envS))
             && (e.applyFamily == "" ==> AllAgree(w, f, env, with, envS, Parameters(wanted) - e.with.Keys))
    ensures Holds(w, f, env, e, source, with, envS)
  {
  }

  lemma MemberAlike(w: World, f: string, env: Env, e: Expr, m: Member, source: string, with: Bindings, envS: Env)
    requires e.Inline? && m in e.fields + e.variants && Alike(w, f, env, e, source, with, envS)
    ensures Alike(w, f, env, m.typ, source, with, envS)
  {
    var r, a := BindExpression(w, f, e, source, with), Denote(w, source, envS, e);
    if m in e.fields {
      var i :| 0 <= i < |e.fields| && e.fields[i] == m;
      assert Denote(w, f, env, r).fields[i] == a.fields[i];
    } else {
      var i :| 0 <= i < |e.variants| && e.variants[i] == m;
      assert Denote(w, f, env, r).variants[i] == a.variants[i];
    }
  }

  lemma InlineHolds(w: World, f: string, env: Env, e: Expr, source: string, with: Bindings, envS: Env)
    requires e.Inline? && forall m | m in e.fields + e.variants :: Holds(w, f, env, m.typ, source, with, envS)
    ensures Holds(w, f, env, e, source, with, envS)
  {
    forall i | 0 <= i < |e.fields| ensures Holds(w, f, env, e.fields[i].typ, source, with, envS) {
      assert e.fields[i] in e.fields + e.variants;
    }
    forall i | 0 <= i < |e.variants| ensures Holds(w, f, env, e.variants[i].typ, source, with, envS) {
      assert e.variants[i] in e.fields + e.variants;
    }
  }

  // ---- Alike if all agrees.

  // The uses an expression that sees these parameters can need: all those a family fills.
  function Narrowed(uses: set<Use>, seen: set<string>): set<Use> {
    set use | use in uses && (use.drawn != "" || use.parameter in seen)
  }

  lemma {:induction false} WithinNarrowed(w: World, family: string, uses: set<Use>, e: Expr, seen: set<string>)
    requires Within(w, family, uses, e) && Seen(w, family, e) <= seen && Parameters(uses) !! Types(w, family).Keys
    ensures Within(w, family, Narrowed(uses, seen), e)
    decreases e, 0
  {
    match e
    case Named(x) => if Use(x, "") in uses { assert x in Parameters(uses); }
    case Array(items) => WithinNarrowed(w, family, uses, items, seen);
    case Map(values) => WithinNarrowed(w, family, uses, values, seen);
    case Nullable(inner) => WithinNarrowed(w, family, uses, inner, seen);
    case Apply(from, x, with) =>
      forall use | use in Uses(w, if from == "" then family else from, x)
        ensures if use.parameter in with then Suits(w, family, Narrowed(uses, seen), with[use.parameter], use.drawn)
                else from == "" && use in Narrowed(uses, seen)
      {
        if use.parameter in with {
          ArgumentSeen(w, family, e, use);
          SuitsNarrowed(w, family, uses, with[use.parameter], use.drawn, seen);
        }
      }
    case Inline(_, _, fields, variants) =>
      forall m | m in fields + variants ensures Within(w, family, Narrowed(uses, seen), m.typ) {
        MemberSeen(w, family, uses, e, m);
        WithinNarrowed(w, family, uses, m.typ, seen);
      }
      InlineWithin(w, family, Narrowed(uses, seen), e);
    case _ =>
  }

  lemma {:induction false} SuitsNarrowed(w: World, family: string, uses: set<Use>, filler: Filler, drawn: string,
                                         seen: set<string>)
    requires Suits(w, family, uses, filler, drawn) && SeenFiller(w, family, filler) <= seen
    requires Parameters(uses) !! Types(w, family).Keys
    ensures Suits(w, family, Narrowed(uses, seen), filler, drawn)
    decreases filler, 1
  {
    if drawn == "" { WithinNarrowed(w, family, uses, filler.typ, seen); }
  }

  lemma ArgumentSeen(w: World, family: string, e: Expr, use: Use)
    requires e.Apply? && use.parameter in e.with
    requires use in Uses(w, if e.applyFamily == "" then family else e.applyFamily, e.applied)
    ensures SeenFiller(w, family, e.with[use.parameter]) <= Seen(w, family, e)
  {
    var p := use.parameter;
    assert forall q :: q in SeenFiller(w, family, e.with[p]) ==> q in Seen(w, family, e);
  }

  lemma MemberSeen(w: World, family: string, uses: set<Use>, e: Expr, m: Member)
    requires e.Inline? && m in e.fields + e.variants && Within(w, family, uses, e)
    ensures Seen(w, family, m.typ) <= Seen(w, family, e) && Within(w, family, uses, m.typ)
  {
    if m in e.fields {
      var i :| 0 <= i < |e.fields| && e.fields[i] == m;
      assert forall q :: q in Seen(w, family, e.fields[i].typ) ==> q in Seen(w, family, e);
    } else {
      var i :| 0 <= i < |e.variants| && e.variants[i] == m;
      assert forall q :: q in Seen(w, family, e.variants[i].typ) ==> q in Seen(w, family, e);
    }
  }

  lemma InlineWithin(w: World, family: string, uses: set<Use>, e: Expr)
    requires e.Inline? && e.own == [] && forall m | m in e.fields + e.variants :: Within(w, family, uses, m.typ)
    ensures Within(w, family, uses, e)
  {
    forall i | 0 <= i < |e.fields| ensures Within(w, family, uses, e.fields[i].typ) {
      assert e.fields[i] in e.fields + e.variants;
    }
    forall i | 0 <= i < |e.variants| ensures Within(w, family, uses, e.variants[i].typ) {
      assert e.variants[i] in e.fields + e.variants;
    }
  }

  // What families fill agrees.
  ghost predicate FamiliesAgree(w: World, f: string, env: Env, with: Bindings, envS: Env, uses: set<Use>) {
    forall use <- uses :: use.drawn != "" ==> Agrees(w, f, env, with, envS, use.parameter)
  }

  /** With the families in agreement, an expression is bound to mean the same if and only if
      all that its meaning holds agrees. */
  lemma {:induction false} AlikeIffHolds(w: World, f: string, env: Env, e: Expr, source: string, with: Bindings,
                                         envS: Env, uses: set<Use>)
    requires Paired(w, f, env, source, with, envS, uses) && Within(w, source, uses, e)
    requires FamiliesAgree(w, f, env, with, envS, uses)
    ensures Alike(w, f, env, e, source, with, envS) <==> Holds(w, f, env, e, source, with, envS)
  {
    if Alike(w, f, env, e, source, with, envS) {
      AlikeHolds(w, f, env, e, source, with, envS, uses);
    }
    if Holds(w, f, env, e, source, with, envS) {
      var narrowed := Narrowed(uses, Seen(w, source, e));
      UsesAreNoTypes(w, source, with, uses);
      WithinNarrowed(w, source, uses, e, Seen(w, source, e));
      assert Bound(w, f, env, source, with, envS, narrowed);
      BindingDenotes(w, f, env, e, source, with, envS, narrowed);
    }
  }

  lemma UsesAreNoTypes(w: World, source: string, with: Bindings, uses: set<Use>)
    requires Fits(w, source, with, uses)
    ensures Parameters(uses) !! Types(w, source).Keys
  {
    assert forall use <- uses :: use.parameter in with;
  }

  /** The same for a filler of a type slot. */
  lemma {:induction false} FillerAlikeIffHolds(w: World, f: string, env: Env, filler: Filler, source: string,
                                               with: Bindings, envS: Env, uses: set<Use>)
    requires Paired(w, f, env, source, with, envS, uses) && Suits(w, source, uses, filler, "")
    requires FamiliesAgree(w, f, env, with, envS, uses)
    ensures FillerAlike(w, f, env, filler, source, with, envS) <==> Holds(w, f, env, filler.typ, source, with, envS)
  {
    if FillerAlike(w, f, env, filler, source, with, envS) {
      FillerAlikeHolds(w, f, env, filler, source, with, envS, uses, "");
    }
    if Holds(w, f, env, filler.typ, source, with, envS) {
      AlikeIffHolds(w, f, env, filler.typ, source, with, envS, uses);
      if filler.typ.Named? && Use(filler.typ.named, "") in uses {
        assert Agrees(w, f, env, with, envS, filler.typ.named);
      } else {
        assert FillerName(filler) !in with;
        BoundIsNoParameter(w, f, env, filler.typ, source, with, envS, uses);
      }
    }
  }
}
