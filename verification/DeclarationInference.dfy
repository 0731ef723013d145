/**
 Where a generic imported without being applied keeps its meaning under inheritance: the
 condition on the declarations, and an accepted inheritance that fails it.
 */
module DeclarationInference {
  import opened DeclarationModel
  import opened DeclarationBinding
  import opened DeclarationSubstitution
  import opened DeclarationUses
  import opened DeclarationChecks

  // An environment fills a scope, each parameter by its sort.
  predicate FillsScope(scope: seq<Parameter>, env: Env) {
    env.Keys == Names(scope) && forall p <- env :: env[p].FamilyValue? <==> Declares(scope, p, true)
  }

  // Nothing is inferred on either side: no one family parameter, or none that is bound.
  predicate NeitherInfers(w: World, f: string, source: string, with: Bindings) {
    |FamilyParameters(w, f)| != 1 && (|FamilyParameters(w, source)| == 1 ==> FamilyParameters(w, source)[0] !in with)
  }

  // Both have one family parameter, and the source's is bound to the caller's.
  predicate HandsFamilyOn(w: World, f: string, source: string, with: Bindings) {
    && |FamilyParameters(w, f)| == 1 && |FamilyParameters(w, source)| == 1
    && var p := FamilyParameters(w, source)[0];
       p in with && with[p].family == "" && with[p].typ == Named(FamilyParameters(w, f)[0])
  }

  ghost predicate PlainImportSafe(w: World, f: string, scope: seq<Parameter>, from: string, x: string, source: string,
                                  with: Bindings) {
    forall env | FillsScope(scope, env) ::
      Alike(w, f, env, Imported(from, x), source, with, DenoteBindings(w, f, env, with))
  }

  // The family's one family parameter is in the scope of each of its types.
  lemma OneIsInScope(w: World, f: string, t: string)
    requires FamilyAccepted(w, f) && t in Types(w, f) && |FamilyParameters(w, f)| == 1
    ensures Declares(Scope(w, f, t), FamilyParameters(w, f)[0], true)
    ensures FamilyParameters(w, f)[0] in Names(Scope(w, f, t))
  {
    var q := FamilyParameters(w, f)[0];
    FamilyParameterDeclared(ParametersOf(w, f), q);
    DeclaresAppended(ParametersOf(w, f), Types(w, f)[t].parameters, q, true);
    DeclaredName(Scope(w, f, t), q, true);
  }

  // An environment that has another family for q than `taken`, and another than for the rest.
  function Telling(scope: seq<Parameter>, q: string, taken: string): Env {
    map n | n in Names(scope) ::
      if Declares(scope, n, true) then FamilyValue(if n == q then taken + "+" else taken) else TypeValue(Nothing)
  }

  lemma TellingFills(scope: seq<Parameter>, q: string, taken: string)
    ensures FillsScope(scope, Telling(scope, q, taken))
  {
  }

  lemma HandedFamilyIsKept(w: World, f: string, source: string, with: Bindings, env: Env)
    requires HandsFamilyOn(w, f, source, with) && FamilyParameters(w, f)[0] in env
    ensures OneFamily(w, f, env) == OneFamily(w, source, DenoteBindings(w, f, env, with))
  {
    var p := FamilyParameters(w, source)[0];
    assert DenoteFiller(w, f, env, with[p]) == env[FamilyParameters(w, f)[0]];
  }

  lemma OneBound(w: World, f: string, env: Env, source: string, with: Bindings)
    ensures var theirs := FamilyParameters(w, source);
            OneFamily(w, source, DenoteBindings(w, f, env, with)) ==
            if |theirs| == 1 && theirs[0] in with then [DenoteFiller(w, f, env, with[theirs[0]])] else []
  {
  }

  // Otherwise some filling of the scope tells the two apart.
  lemma {:induction false} OtherwiseTold(w: World, f: string, t: string, source: string, with: Bindings)
    returns (env: Env)
    requires FamilyAccepted(w, f) && t in Types(w, f)
    requires !NeitherInfers(w, f, source, with) && !HandsFamilyOn(w, f, source, with)
    ensures FillsScope(Scope(w, f, t), env)
    ensures OneFamily(w, f, env) != OneFamily(w, source, DenoteBindings(w, f, env, with))
  {
    var scope, mine, theirs := Scope(w, f, t), FamilyParameters(w, f), FamilyParameters(w, source);
    if |mine| == 1 {
      OneIsInScope(w, f, t);
      env := Telling(scope, mine[0], if |theirs| == 1 && theirs[0] in with then with[theirs[0]].family else "");
      TellingFills(scope, mine[0], if |theirs| == 1 && theirs[0] in with then with[theirs[0]].family else "");
      if |theirs| == 1 && theirs[0] in with { FillerIsTold(w, f, scope, mine[0], with[theirs[0]]); }
    } else {
      env := Telling(scope, "", "");
      TellingFills(scope, "", "");
    }
    OneBound(w, f, env, source, with);
  }

  lemma FillerIsTold(w: World, f: string, scope: seq<Parameter>, q: string, filler: Filler)
    requires !(filler.family == "" && filler.typ == Named(q))
    ensures DenoteFiller(w, f, Telling(scope, q, filler.family), filler) != FamilyValue(filler.family + "+")
  {
    assert |filler.family + "+"| != |filler.family|;
  }

  // The condition, on the declarations alone.
  predicate MayImportPlainly(w: World, f: string, from: string, x: string, source: string, with: Bindings) {
    (forall use <- Uses(w, from, x) :: use.drawn == "") || NeitherInfers(w, f, source, with)
      || HandsFamilyOn(w, f, source, with)
  }

  lemma {:induction false} MayThenAlike(w: World, f: string, t: string, from: string, x: string, source: string,
                                        with: Bindings, env: Env)
    requires FamilyAccepted(w, f) && t in Types(w, f) && FillsScope(Scope(w, f, t), env)
    requires MayImportPlainly(w, f, from, x, source, with)
    ensures Alike(w, f, env, Imported(from, x), source, with, DenoteBindings(w, f, env, with))
  {
    if HandsFamilyOn(w, f, source, with) {
      OneIsInScope(w, f, t);
      HandedFamilyIsKept(w, f, source, with, env);
    } else if NeitherInfers(w, f, source, with) {
      OneBound(w, f, env, source, with);
    }
    PlainImportAlikeIff(w, f, env, from, x, source, with, DenoteBindings(w, f, env, with));
  }

  /** A plain imported generic keeps its meaning under every filling of the caller's scope if and
      only if it has no family slot, or neither side infers a family, or both have one family
      parameter and the caller's is handed on as the source's. */
  lemma {:induction false} PlainImportSafeIff(w: World, f: string, t: string, from: string, x: string, source: string,
                                              with: Bindings)
    requires FamilyAccepted(w, f) && t in Types(w, f)
    ensures PlainImportSafe(w, f, Scope(w, f, t), from, x, source, with) <==>
            MayImportPlainly(w, f, from, x, source, with)
  {
    if MayImportPlainly(w, f, from, x, source, with) {
      forall env | FillsScope(Scope(w, f, t), env)
        ensures Alike(w, f, env, Imported(from, x), source, with, DenoteBindings(w, f, env, with))
      {
        MayThenAlike(w, f, t, from, x, source, with, env);
      }
    } else {
      var env := OtherwiseTold(w, f, t, source, with);
      PlainImportAlikeIff(w, f, env, from, x, source, with, DenoteBindings(w, f, env, with));
    }
  }
}
