/**
 Viewing an inherited expression in the caller's scope: capture-avoiding substitution
 across families, and the flattening of inherited fields built on it.
 */
module DeclarationBinding {
  import opened DeclarationModel

  /** Views a source expression in family f's scope. */
  function BindExpression(w: World, f: string, e: Expr, source: string, with: Bindings): (r: Expr)
    ensures e != Absent && !(e.Named? && e.named in with) ==> r != Absent
    decreases if with == map[] then 0 else 1, e
  {
    match e
    case Named(x) =>
      if x in with && with[x].typ != Absent then BindExpression(w, f, with[x].typ, f, map[])
      else if x in Types(w, source) then
        var bindings := map p | p in Parameters(Uses(w, source, x)) && p in with :: with[p];
        if bindings != map[] then Apply(if source != f then source else "", x, bindings)
        else if source != f then Imported(source, x)
        else e
      else e
    case Drawn(p, x) =>
      if p in with && with[p].family != "" then Imported(with[p].family, x)
      else if p in with && FillerName(with[p]) != "" then Drawn(FillerName(with[p]), x)
      else e
    case Ref(entity, family) => Ref(entity, if family == "" then source else family)
    case Array(items) => Array(BindExpression(w, f, items, source, with))
    case Map(values) => Map(BindExpression(w, f, values, source, with))
    case Nullable(inner) => Nullable(BindExpression(w, f, inner, source, with))
    case Apply(family, x, arguments) =>
      var bindings := map p | p in arguments :: BindFiller(w, f, arguments[p], source, with);
      if family != "" then Apply(family, x, bindings)
      else
        var captured := map p | p in Parameters(Uses(w, source, x)) && p !in bindings && p in with :: with[p];
        Apply(if source != f then source else "", x, captured + bindings)
    case Inline(kind, own, fields, variants) =>
      Inline(kind, own,
             seq(|fields|, i requires 0 <= i < |fields| =>
               Member(fields[i].name, BindExpression(w, f, fields[i].typ, source, with))),
             seq(|variants|, i requires 0 <= i < |variants| =>
               Member(variants[i].name, BindExpression(w, f, variants[i].typ, source, with))))
    case _ => e
  }

  function BindFiller(w: World, f: string, filler: Filler, source: string, with: Bindings): Filler
    decreases if with == map[] then 0 else 1, filler
  {
    if FillerName(filler) in with && filler.family == "" then with[FillerName(filler)]
    else filler.(typ := BindExpression(w, f, filler.typ, source, with))
  }

  /** Composes one inheritance edge with the caller's bindings. */
  function BindArguments(w: World, f: string, arguments: Bindings, source: string, with: Bindings): Bindings {
    map p | p in arguments :: BindFiller(w, f, arguments[p], source, with)
  }

  // ---- What checked declarations satisfy.

  // A filler suits a slot: a type, or a family whose drawn member is not generic, or a
  // parameter in scope drawn the same way.
  predicate Suits(w: World, family: string, uses: set<Use>, filler: Filler, drawn: string)
    decreases filler, 1
  {
    if drawn == "" then filler.family == "" && filler.typ != Absent && Within(w, family, uses, filler.typ)
    else if filler.family != "" then Uses(w, filler.family, drawn) == {}
    else filler.typ.Named? && Use(filler.typ.named, drawn) in uses
  }

  // An expression needs nothing its declaration's uses do not record, and inline shapes
  // declare no parameters.
  predicate Within(w: World, family: string, uses: set<Use>, e: Expr)
    decreases e, 0
  {
    match e
    case Named(x) => Use(x, "") in uses || (x in Types(w, family) && Uses(w, family, x) <= uses)
    case Imported(from, x) =>
      var one := FamilyParameters(w, family);
      |one| == 1 ==> forall use <- Uses(w, from, x) :: use.drawn != "" ==> Use(one[0], use.drawn) in uses
    case Drawn(p, x) => x != "" && Use(p, x) in uses
    case Array(items) => Within(w, family, uses, items)
    case Map(values) => Within(w, family, uses, values)
    case Nullable(inner) => Within(w, family, uses, inner)
    case Apply(from, x, with) =>
      forall use <- Uses(w, if from == "" then family else from, x) ::
        if use.parameter in with then Suits(w, family, uses, with[use.parameter], use.drawn)
        else from == "" && use in uses
    case Inline(_, own, fields, variants) =>
      && own == []
      && (forall i :: 0 <= i < |fields| ==> Within(w, family, uses, fields[i].typ))
      && forall i :: 0 <= i < |variants| ==> Within(w, family, uses, variants[i].typ)
    case _ => true
  }

  // No type with a family slot is imported without being applied, where it shows.
  predicate PlainFree(w: World, family: string, e: Expr) {
    match e
    case Imported(from, x) => forall use <- Uses(w, from, x) :: use.drawn == ""
    case Array(items) => PlainFree(w, family, items)
    case Map(values) => PlainFree(w, family, values)
    case Nullable(inner) => PlainFree(w, family, inner)
    case Apply(from, x, with) =>
      var wanted := Parameters(Uses(w, if from == "" then family else from, x));
      forall p <- with :: p in wanted && with[p].family == "" ==> PlainFree(w, family, with[p].typ)
    case Inline(_, _, fields, variants) =>
      && (forall i :: 0 <= i < |fields| ==> PlainFree(w, family, fields[i].typ))
      && forall i :: 0 <= i < |variants| ==> PlainFree(w, family, variants[i].typ)
    case _ => true
  }

  // Plain imports infer the same in both scopes, if there are any that infer.
  ghost predicate InfersAlike(w: World, f: string, env: Env, source: string, envS: Env, e: Expr) {
    PlainFree(w, source, e) || OneFamily(w, f, env) == OneFamily(w, source, envS)
  }

  // A filler has the sort of a slot: a type, or a family or family parameter.
  predicate Fills(w: World, filler: Filler, drawn: string) {
    if drawn == "" then filler.family == "" && filler.typ != Absent
    else if filler.family != "" then Uses(w, filler.family, drawn) == {}
    else FillerName(filler) != ""
  }

  // Bindings fill at least the parameters used, each as it is used; what they fill are not
  // types of the source.
  predicate Fits(w: World, source: string, with: Bindings, uses: set<Use>) {
    && "" !in with && with.Keys !! Types(w, source).Keys
    && forall use <- uses :: use.parameter in with && Fills(w, with[use.parameter], use.drawn)
  }

  // The source's environment has for each parameter used what the bindings denote.
  ghost predicate Supplies(w: World, f: string, env: Env, with: Bindings, uses: set<Use>, source: string, envS: Env) {
    && Apart(w, source, envS)
    && forall p <- Parameters(uses) :: p in with && p in envS && envS[p] == DenoteFiller(w, f, env, with[p])
  }

  predicate Apart(w: World, family: string, env: Env) { env.Keys !! Types(w, family).Keys }

  // The bound expression means to the caller what the source expression means at home.
  ghost predicate Alike(w: World, f: string, env: Env, e: Expr, source: string, with: Bindings, envS: Env) {
    Denote(w, f, env, BindExpression(w, f, e, source, with)) == Denote(w, source, envS, e)
  }

  ghost predicate FillerAlike(w: World, f: string, env: Env, filler: Filler, source: string, with: Bindings,
                              envS: Env) {
    DenoteFiller(w, f, env, BindFiller(w, f, filler, source, with)) == DenoteFiller(w, source, envS, filler)
  }

  // The same without bindings, in the caller's own family.
  ghost predicate Kept(w: World, f: string, env: Env, e: Expr) {
    Denote(w, f, env, BindExpression(w, f, e, f, map[])) == Denote(w, f, env, e)
  }
}
