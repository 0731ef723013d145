/**
 Substitution keeps meaning: an inherited expression, viewed in the caller's scope,
 denotes there what it denotes in its own under the supplied arguments. Each form of
 expression has a lemma of its own, on what a reference to a parameter, to a type of the
 same family, to an import or to an application becomes when it is bound.
 */
module DeclarationSubstitution {
  import opened DeclarationModel
  import opened DeclarationBinding

  lemma {:induction false} RebindingDenotes(w: World, f: string, env: Env, e: Expr)
    requires f != ""
    ensures Kept(w, f, env, e)
    decreases e, 0
  {
    match e
    case Array(items) => RebindingDenotes(w, f, env, items);
    case Map(values) => RebindingDenotes(w, f, env, values);
    case Nullable(inner) => RebindingDenotes(w, f, env, inner);
    case Apply(family, x, with) =>
      forall p | p in with
        ensures DenoteFiller(w, f, env, BindFiller(w, f, with[p], f, map[])) == DenoteFiller(w, f, env, with[p])
      {
        RebindingFillerDenotes(w, f, env, with[p]);
      }
      RebindingApplied(w, f, env, e);
    case Inline(_, _, fields, variants) =>
      forall m | m in fields + variants ensures Kept(w, f, env, m.typ) {
        RebindingDenotes(w, f, env, m.typ);
      }
      RebindingInline(w, f, env, e);
    case _ =>
  }

  lemma {:induction false} RebindingApplied(w: World, f: string, env: Env, e: Expr)
    requires e.Apply? && forall p | p in e.with ::
               DenoteFiller(w, f, env, BindFiller(w, f, e.with[p], f, map[])) == DenoteFiller(w, f, env, e.with[p])
    ensures Kept(w, f, env, e)
  {
    var bindings := BindArguments(w, f, e.with, f, map[]);
    var wanted := Uses(w, if e.applyFamily == "" then f else e.applyFamily, e.applied);
    RebindingSupplied(w, f, env, e.with, wanted);
    RebindingIsTo(w, f, e);
    DenotesApplication(w, f, env, e.applyFamily, e.applied, bindings);
    DenotesApplication(w, f, env, e.applyFamily, e.applied, e.with);
  }

  lemma RebindingSupplied(w: World, f: string, env: Env, arguments: Bindings, wanted: set<Use>)
    requires forall p | p in arguments ::
               DenoteFiller(w, f, env, BindFiller(w, f, arguments[p], f, map[])) ==
                 DenoteFiller(w, f, env, arguments[p])
    ensures var bindings := BindArguments(w, f, arguments, f, map[]);
            bindings.Keys == arguments.Keys
              && Supplied(w, f, env, bindings, wanted) == Supplied(w, f, env, arguments, wanted)
  {
  }

  lemma RebindingIsTo(w: World, f: string, e: Expr)
    requires e.Apply?
    ensures BindExpression(w, f, e, f, map[]) == Apply(e.applyFamily, e.applied, BindArguments(w, f, e.with, f, map[]))
  {
    var bindings := BindArguments(w, f, e.with, f, map[]);
    var none: Bindings := map[];
    assert Held(Uses(w, f, e.applied), bindings.Keys, none) + bindings == bindings;
  }

  lemma RebindingInline(w: World, f: string, env: Env, e: Expr)
    requires e.Inline? && forall m | m in e.fields + e.variants :: Kept(w, f, env, m.typ)
    ensures Kept(w, f, env, e)
  {
    forall i | 0 <= i < |e.fields| ensures Kept(w, f, env, e.fields[i].typ) {
      assert e.fields[i] in e.fields + e.variants;
    }
    forall i | 0 <= i < |e.variants| ensures Kept(w, f, env, e.variants[i].typ) {
      assert e.variants[i] in e.fields + e.variants;
    }
  }

  lemma {:induction false} RebindingFillerDenotes(w: World, f: string, env: Env, filler: Filler)
    requires f != ""
    ensures DenoteFiller(w, f, env, BindFiller(w, f, filler, f, map[])) == DenoteFiller(w, f, env, filler)
    decreases filler, 1
  {
    if filler.family == "" { RebindingDenotes(w, f, env, filler.typ); }
  }

  // A scope bound to the caller's: bindings that fit the uses, and the environment they make.
  ghost predicate Bound(w: World, f: string, env: Env, source: string, with: Bindings, envS: Env, uses: set<Use>) {
    && f != "" && source != "" && Apart(w, f, env)
    && Fits(w, source, with, uses) && Supplies(w, f, env, with, uses, source, envS)
  }

  /** The bound expression denotes in the caller's scope what the source expression denotes in
      any environment of the source that has what the bindings supply. */
  lemma {:induction false} BindingDenotes(w: World, f: string, env: Env, e: Expr, source: string, with: Bindings,
                                          envS: Env, uses: set<Use>)
    requires Bound(w, f, env, source, with, envS, uses)
    requires Within(w, source, uses, e) && InfersAlike(w, f, env, source, envS, e)
    ensures Alike(w, f, env, e, source, with, envS)
    decreases e, 0
  {
    match e
    case Named(x) => NamedDenotes(w, f, env, x, source, with, envS, uses);
    case Imported(from, x) => PlainImportAlikeIff(w, f, env, from, x, source, with, envS);
    case Drawn(p, x) => DrawnDenotes(w, f, env, p, x, source, with, envS, uses);
    case Array(items) => BindingDenotes(w, f, env, items, source, with, envS, uses);
    case Map(values) => BindingDenotes(w, f, env, values, source, with, envS, uses);
    case Nullable(inner) => BindingDenotes(w, f, env, inner, source, with, envS, uses);
    case Apply(family, x, arguments) =>
      var wanted := Uses(w, if family == "" then source else family, x);
      forall p | p in arguments && p in Parameters(wanted)
        ensures FillerAlike(w, f, env, arguments[p], source, with, envS)
      {
        var use :| use in wanted && use.parameter == p;
        FillerDenotes(w, f, env, arguments[p], source, with, envS, uses, use.drawn);
      }
      if family == "" { LocalDenotes(w, f, env, e, source, with, envS, uses); }
      else { AppliedDenotes(w, f, env, e, source, with, envS); }
    case Inline(_, _, fields, variants) =>
      forall m | m in fields + variants ensures Alike(w, f, env, m.typ, source, with, envS) {
        BindingDenotes(w, f, env, m.typ, source, with, envS, uses);
      }
      InlineDenotes(w, f, env, e, source, with, envS);
    case _ =>
  }

  lemma InlineDenotes(w: World, f: string, env: Env, e: Expr, source: string, with: Bindings, envS: Env)
    requires e.Inline? && forall m | m in e.fields + e.variants :: Alike(w, f, env, m.typ, source, with, envS)
    ensures Alike(w, f, env, e, source, with, envS)
  {
    forall i | 0 <= i < |e.fields| ensures Alike(w, f, env, e.fields[i].typ, source, with, envS) {
      assert e.fields[i] in e.fields + e.variants;
    }
    forall i | 0 <= i < |e.variants| ensures Alike(w, f, env, e.variants[i].typ, source, with, envS) {
      assert e.variants[i] in e.fields + e.variants;
    }
  }

  lemma DrawnDenotes(w: World, f: string, env: Env, p: string, x: string, source: string, with: Bindings, envS: Env,
                     uses: set<Use>)
    requires Bound(w, f, env, source, with, envS, uses) && Within(w, source, uses, Drawn(p, x))
    ensures Alike(w, f, env, Drawn(p, x), source, with, envS)
  {
    assert Use(p, x) in uses && p in Parameters(uses);
  }

  lemma NamedDenotes(w: World, f: string, env: Env, x: string, source: string, with: Bindings, envS: Env,
                     uses: set<Use>)
    requires Bound(w, f, env, source, with, envS, uses) && Within(w, source, uses, Named(x))
    ensures Alike(w, f, env, Named(x), source, with, envS)
  {
    if Use(x, "") in uses {
      assert x in Parameters(uses);
      ParameterDenotes(w, f, env, x, source, with, envS);
    } else {
      TypeNameDenotes(w, f, env, x, source, with, envS, uses);
    }
  }

  lemma ParameterDenotes(w: World, f: string, env: Env, x: string, source: string, with: Bindings, envS: Env)
    requires f != "" && x in with && with[x].family == "" && with[x].typ != Absent
    requires x in envS && envS[x] == DenoteFiller(w, f, env, with[x])
    ensures Alike(w, f, env, Named(x), source, with, envS)
  {
    RebindingDenotes(w, f, env, with[x].typ);
    if with[x].typ.Named? { assert BindExpression(w, f, with[x].typ, f, map[]) == with[x].typ; }
  }

  // What is supplied for the parameters wanted, as the caller's bindings denote it.
  ghost function Supplied(w: World, family: string, env: Env, with: Bindings, wanted: set<Use>): Env {
    map p | p in with && p in Parameters(wanted) :: DenoteFiller(w, family, env, with[p])
  }

  lemma DenotesApplication(w: World, family: string, env: Env, from: string, x: string, with: Bindings)
    ensures var wanted := Uses(w, if from == "" then family else from, x);
            Denote(w, family, env, Apply(from, x, with)) ==
            if from == ""
              then Declared(family, x, Captured(env, wanted, with.Keys) + Supplied(w, family, env, with, wanted))
            else Declared(from, x, Supplied(w, family, env, with, wanted))
  {
  }

  // The bindings an application within the source family captures.
  ghost function Held(wanted: set<Use>, supplied: set<string>, with: Bindings): Bindings {
    map p | p in Parameters(wanted) && p !in supplied && p in with :: with[p]
  }

  // An application of a type of the source, all it wants bound, in the caller's scope.
  lemma SourceApplied(w: World, f: string, env: Env, source: string, x: string, full: Bindings)
    requires source != "" && forall p <- Parameters(Uses(w, source, x)) :: p in full
    ensures Denote(w, f, env, Apply(if source != f then source else "", x, full)) ==
            Declared(source, x, Supplied(w, f, env, full, Uses(w, source, x)))
  {
    DenotesApplication(w, f, env, if source != f then source else "", x, full);
    assert Captured(env, Uses(w, source, x), full.Keys) == map[];
    NothingAdded(Supplied(w, f, env, full, Uses(w, source, x)));
  }

  lemma NothingAdded(env: Env)
    ensures map[] + env == env
  {
  }

  // What is wanted and not supplied is held from the bindings, as the source captures it.
  lemma HeldIsCaptured(w: World, f: string, env: Env, source: string, with: Bindings, envS: Env, uses: set<Use>,
                       wanted: set<Use>, supplied: set<string>)
    requires Supplies(w, f, env, with, uses, source, envS)
    requires forall use <- wanted :: use.parameter in supplied || use in uses
    ensures forall p <- Parameters(wanted) :: p in supplied || p in Held(wanted, supplied, with)
    ensures Supplied(w, f, env, Held(wanted, supplied, with), wanted) == Captured(envS, wanted, supplied)
  {
    assert forall use <- wanted :: use.parameter in supplied || use.parameter in Parameters(uses);
  }

  lemma {:induction false} TypeNameDenotes(w: World, f: string, env: Env, x: string, source: string, with: Bindings,
                                           envS: Env, uses: set<Use>)
    requires Bound(w, f, env, source, with, envS, uses) && x in Types(w, source) && Uses(w, source, x) <= uses
    ensures Alike(w, f, env, Named(x), source, with, envS)
  {
    var wanted := Uses(w, source, x);
    var bindings := Held(wanted, {}, with);
    HeldIsCaptured(w, f, env, source, with, envS, uses, wanted, {});
    NamedIsBoundTo(w, f, x, source, with);
    if bindings == map[] {
      NothingWanted(wanted, bindings);
      UnboundTypeNameDenotes(w, f, env, x, source, envS);
    } else {
      SourceApplied(w, f, env, source, x, bindings);
    }
  }

  lemma NothingWanted(wanted: set<Use>, bindings: Bindings)
    requires bindings == map[] && forall p <- Parameters(wanted) :: p in {} || p in bindings
    ensures wanted == {}
  {
    assert forall use <- wanted :: use.parameter in Parameters(wanted);
  }

  lemma NamedIsBoundTo(w: World, f: string, x: string, source: string, with: Bindings)
    requires x in Types(w, source) && x !in with
    ensures var bindings := Held(Uses(w, source, x), {}, with);
            BindExpression(w, f, Named(x), source, with) ==
            if bindings != map[] then Apply(if source != f then source else "", x, bindings)
            else if source != f then Imported(source, x) else Named(x)
  {
    assert Held(Uses(w, source, x), {}, with) == map p | p in Parameters(Uses(w, source, x)) && p in with :: with[p];
  }

  lemma UnboundTypeNameDenotes(w: World, f: string, env: Env, x: string, source: string, envS: Env)
    requires x in Types(w, source) && Apart(w, f, env) && Apart(w, source, envS) && Uses(w, source, x) == {}
    ensures Denote(w, f, env, if source != f then Imported(source, x) else Named(x)) ==
            Denote(w, source, envS, Named(x))
  {
    assert Captured(env, {}, {}) == Captured(envS, {}, {}) == map[];
  }

  // An application of another family's type, what it wants already known alike.
  lemma AppliedDenotes(w: World, f: string, env: Env, e: Expr, source: string, with: Bindings, envS: Env)
    requires e.Apply? && e.applyFamily != ""
    requires forall p | p in e.with && p in Parameters(Uses(w, e.applyFamily, e.applied)) ::
               FillerAlike(w, f, env, e.with[p], source, with, envS)
    ensures Alike(w, f, env, e, source, with, envS)
  {
    var wanted, bindings := Uses(w, e.applyFamily, e.applied), BindArguments(w, f, e.with, source, with);
    DenotesApplication(w, f, env, e.applyFamily, e.applied, bindings);
    DenotesApplication(w, source, envS, e.applyFamily, e.applied, e.with);
    assert Supplied(w, f, env, bindings, wanted) == Supplied(w, source, envS, e.with, wanted);
  }

  ghost function LocalArguments(w: World, f: string, e: Expr, source: string, with: Bindings): Bindings
    requires e.Apply?
  {
    var bindings := BindArguments(w, f, e.with, source, with);
    Held(Uses(w, source, e.applied), bindings.Keys, with) + bindings
  }

  lemma LocalIsBoundTo(w: World, f: string, e: Expr, source: string, with: Bindings)
    requires e.Apply? && e.applyFamily == ""
    ensures BindExpression(w, f, e, source, with) ==
            Apply(if source != f then source else "", e.applied, LocalArguments(w, f, e, source, with))
  {
  }

  lemma {:induction false} LocalArgumentsDenote(w: World, f: string, env: Env, e: Expr, source: string, with: Bindings,
                                                envS: Env, uses: set<Use>)
    requires e.Apply? && e.applyFamily == "" && Bound(w, f, env, source, with, envS, uses) && Within(w, source, uses, e)
    requires forall p | p in e.with && p in Parameters(Uses(w, source, e.applied)) ::
               FillerAlike(w, f, env, e.with[p], source, with, envS)
    ensures var wanted, full := Uses(w, source, e.applied), LocalArguments(w, f, e, source, with);
            && (forall p <- Parameters(wanted) :: p in full)
            && Supplied(w, f, env, full, wanted) ==
               Captured(envS, wanted, e.with.Keys) + Supplied(w, source, envS, e.with, wanted)
  {
    var wanted, bindings := Uses(w, source, e.applied), BindArguments(w, f, e.with, source, with);
    assert bindings.Keys == e.with.Keys;
    HeldIsCaptured(w, f, env, source, with, envS, uses, wanted, bindings.Keys);
    assert Supplied(w, f, env, bindings, wanted) == Supplied(w, source, envS, e.with, wanted);
    UnionSupplied(w, f, env, Held(wanted, bindings.Keys, with), bindings, wanted);
  }

  lemma UnionSupplied(w: World, f: string, env: Env, a: Bindings, b: Bindings, wanted: set<Use>)
    ensures Supplied(w, f, env, a + b, wanted) == Supplied(w, f, env, a, wanted) + Supplied(w, f, env, b, wanted)
  {
  }

  lemma {:induction false} LocalDenotes(w: World, f: string, env: Env, e: Expr, source: string, with: Bindings,
                                        envS: Env, uses: set<Use>)
    requires e.Apply? && e.applyFamily == "" && Bound(w, f, env, source, with, envS, uses) && Within(w, source, uses, e)
    requires forall p | p in e.with && p in Parameters(Uses(w, source, e.applied)) ::
               FillerAlike(w, f, env, e.with[p], source, with, envS)
    ensures Alike(w, f, env, e, source, with, envS)
  {
    LocalArgumentsDenote(w, f, env, e, source, with, envS, uses);
    LocalIsBoundTo(w, f, e, source, with);
    SourceApplied(w, f, env, source, e.applied, LocalArguments(w, f, e, source, with));
    DenotesApplication(w, source, envS, "", e.applied, e.with);
  }

  lemma {:induction false} FillerDenotes(w: World, f: string, env: Env, filler: Filler, source: string, with: Bindings,
                                         envS: Env, uses: set<Use>, drawn: string)
    requires Bound(w, f, env, source, with, envS, uses)
    requires Suits(w, source, uses, filler, drawn)
    requires filler.family == "" ==> InfersAlike(w, f, env, source, envS, filler.typ)
    ensures FillerAlike(w, f, env, filler, source, with, envS)
    decreases filler, 1
  {
    if drawn != "" {
      if filler.family == "" { assert filler.typ.named in Parameters(uses); }
    } else if filler.typ.Named? && Use(filler.typ.named, "") in uses {
      assert filler.typ.named in Parameters(uses);
    } else {
      assert FillerName(filler) !in with;
      BindingDenotes(w, f, env, filler.typ, source, with, envS, uses);
    }
  }

  /** A plain imported generic is carried over as it is written. That keeps its meaning
      exactly when it has no family slot, or both scopes infer the same family for it. */
  lemma PlainImportAlikeIff(w: World, f: string, env: Env, from: string, x: string, source: string, with: Bindings,
                            envS: Env)
    ensures Alike(w, f, env, Imported(from, x), source, with, envS) <==>
            InfersAlike(w, f, env, source, envS, Imported(from, x))
  {
    var uses, mine, theirs := Uses(w, from, x), OneFamily(w, f, env), OneFamily(w, source, envS);
    var a, b := Inferred(w, f, env, uses), Inferred(w, source, envS, uses);
    if use :| use in uses && use.drawn != "" {
      assert use.parameter in a <==> mine != [];
      assert use.parameter in b <==> theirs != [];
      if a == b && mine != [] { assert a[use.parameter] == mine[0] && b[use.parameter] == theirs[0]; }
    } else {
      assert a == map[] && b == map[];
    }
  }
}
