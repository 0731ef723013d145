/**
 What the declaration checks give: in accepted families, a type needs nothing beyond the
 uses the generics computation finds for it, and every edge fills what its base uses.
 First the rules, as predicates over a family; then that every use found is of a parameter
 in scope, since a least solution holds nothing its equations do not force; then that what
 resolves in a scope is within the uses found there. Tiers, and what kinds of type may be
 drawn, are not looked at.
 */
module DeclarationChecks {
  import opened DeclarationModel
  import opened DeclarationBinding
  import opened DeclarationUses
  import opened DeclarationFields
  import opened Wrappers

  // ---- The rules.

  // What an application fills: the type's own parameters, and those of its family it uses
  // where they are not captured from the scope.
  function Wanted(w: World, owner: string, x: string, captured: bool): set<string>
    requires x in Types(w, owner)
  {
    Names(Types(w, owner)[x].parameters) + if captured then {} else Parameters(Uses(w, owner, x))
  }

  /** A generic import not applied: the family has one family parameter to infer, and the
      import wants family parameters only. */
  predicate PlainAdmitted(w: World, f: string, from: string, x: string) {
    && from in Imports(w, f) && x in Types(w, from)
    && (Wanted(w, from, x, false) != {} ==> |FamilyParameters(w, f)| == 1)
    && forall p <- Wanted(w, from, x, false) :: Declares(Scope(w, from, x), p, true)
  }

  // A family filling a parameter has no generic type where the parameter is drawn.
  predicate DrawsPlain(w: World, owner: string, x: string, with: Bindings) {
    forall use <- Uses(w, owner, x) ::
      use.drawn != "" && use.parameter in with && with[use.parameter].family != "" ==>
        Uses(w, with[use.parameter].family, use.drawn) == {}
  }

  // A filler is of its slot's sort: a type, or an imported family or family parameter in scope.
  predicate FillerResolves(w: World, f: string, scope: seq<Parameter>, filler: Filler, ofFamily: bool)
    decreases filler, 1
  {
    if !ofFamily then filler.family == "" && filler.typ != Absent && Resolves(w, f, scope, filler.typ)
    else if filler.family != "" then filler.family in Imports(w, f)
    else filler.typ.Named? && filler.typ.named != "" && Declares(scope, filler.typ.named, true)
  }

  /** The names of an expression resolve in a scope of a family, and what is generic is filled. */
  predicate Resolves(w: World, f: string, scope: seq<Parameter>, e: Expr)
    decreases e, 0
  {
    match e
    case Named(x) =>
      || Declares(scope, x, false)
      || (!Declares(scope, x, true) && x in Types(w, f) && Types(w, f)[x].parameters == [])
    case Imported(from, x) => PlainAdmitted(w, f, from, x)
    case Drawn(p, x) => x != "" && Declares(scope, p, true)
    case Array(items) => Resolves(w, f, scope, items)
    case Map(values) => Resolves(w, f, scope, values)
    case Nullable(inner) => Resolves(w, f, scope, inner)
    case Ref(entity, from) => from == "" && entity in Types(w, f) && Types(w, f)[entity].kind.Entity?
    case Apply(from, x, with) =>
      var owner := if from == "" then f else from;
      && x in Types(w, owner) && (from != "" ==> from in Imports(w, f))
      && with != map[] && with.Keys == Wanted(w, owner, x, from == "") && DrawsPlain(w, owner, x, with)
      && forall p <- with :: FillerResolves(w, f, scope, with[p], Declares(Scope(w, owner, x), p, true))
    case Inline(_, own, fields, variants) =>
      && own == []
      && (forall i :: 0 <= i < |fields| ==> Resolves(w, f, scope, fields[i].typ))
      && forall i :: 0 <= i < |variants| ==> Resolves(w, f, scope, variants[i].typ)
    case _ => true
  }

  // An inheritance edge fills all its base is generic in, the captured included.
  predicate EdgeResolves(w: World, f: string, scope: seq<Parameter>, base: Base) {
    match BaseOf(w, f, base)
    case None => false
    case Some((owner, x)) =>
      && base.with.Keys == Wanted(w, owner, x, false) && (base.with != map[] <==> base.applied)
      && DrawsPlain(w, owner, x, base.with)
      && forall p <- base.with :: FillerResolves(w, f, scope, base.with[p], Declares(Scope(w, owner, x), p, true))
  }

  predicate ParametersAccepted(w: World, f: string, parameters: seq<Parameter>) {
    && "" !in Names(parameters) && Names(parameters) !! Types(w, f).Keys
    && forall i, j :: 0 <= i < j < |parameters| ==> parameters[i].name != parameters[j].name
  }

  // A type's expressions, but for its inheritance.
  function Written(d: Declaration): seq<Expr> { Typed(d.fields) + [d.alias, d.request, d.result] + Typed(d.variants) }

  predicate TypeAccepted(w: World, f: string, t: string)
    requires t in Types(w, f)
  {
    var d, scope := Types(w, f)[t], Scope(w, f, t);
    && ParametersAccepted(w, f, d.parameters) && Names(d.parameters) !! Names(ParametersOf(w, f))
    && (forall e :: e in Written(d) ==> Resolves(w, f, scope, e))
    && (forall i :: 0 <= i < |d.bases| ==> EdgeResolves(w, f, scope, d.bases[i]))
    && (KeyType(d).Primitive? || KeyType(d).Absent?)
  }

  // The names an expression mentions: of parameters and types, drawn through, and filled with.
  function Mentioned(e: Expr): set<string> {
    match e
    case Named(x) => {x}
    case Drawn(p, _) => {p}
    case Array(items) => Mentioned(items)
    case Map(values) => Mentioned(values)
    case Nullable(inner) => Mentioned(inner)
    case Apply(_, _, with) => set p, q | p in with && q in Mentioned(with[p].typ) :: q
    case Inline(_, _, fields, variants) =>
      (set i, q | 0 <= i < |fields| && q in Mentioned(fields[i].typ) :: q)
      + set i, q | 0 <= i < |variants| && q in Mentioned(variants[i].typ) :: q
    case _ => {}
  }

  /** Every parameter of the family is mentioned, a plain import mentioning none. A family may
      mention one in an operation instead, so this is no part of what follows. */
  ghost predicate ParametersMentioned(w: World, f: string) {
    forall p <- ParametersOf(w, f) ::
      exists t, e :: t in Types(w, f) && e in Expressions(Types(w, f)[t]) && p.name in Mentioned(e)
  }

  /** A family the checks accept, carrying what its generics computation found. */
  ghost predicate FamilyAccepted(w: World, f: string) {
    && f in w && f != "" && ParametersAccepted(w, f, ParametersOf(w, f))
    && (forall t :: t in Types(w, f) ==> TypeAccepted(w, f, t))
    && Solves(w, f, w[f].uses) && Least(w, f, w[f].uses)
  }

  // Imports stay among the families and never lead back.
  ghost predicate Ordered(w: World, families: set<string>, rank: map<string, nat>) {
    forall f <- families ::
      f in rank && forall from <- Imports(w, f) :: from in families && from in rank && rank[from] < rank[f]
  }

  ghost predicate Accepted(w: World, families: set<string>) {
    (forall f <- families :: FamilyAccepted(w, f)) && exists rank :: Ordered(w, families, rank)
  }

  // ---- Every use is of a parameter in scope, as that parameter is used.

  predicate InScope(scope: seq<Parameter>, uses: set<Use>) {
    forall r <- uses :: Declares(scope, r.parameter, r.drawn != "")
  }

  ghost predicate TableInScope(w: World, f: string, u: Table) {
    forall t :: t in u && t in Types(w, f) ==> InScope(Scope(w, f, t), u[t])
  }

  ghost predicate UsesInScope(w: World, f: string) {
    forall t :: t in Types(w, f) ==> InScope(Scope(w, f, t), Uses(w, f, t))
  }

  lemma {:induction false} OneSort(scope: seq<Parameter>, name: string)
    ensures !(Declares(scope, name, true) && Declares(scope, name, false))
  {
    if scope != [] { OneSort(scope[1..], name); }
  }

  // What a longer scope declares first.
  lemma {:induction false} DeclaresAppended(a: seq<Parameter>, b: seq<Parameter>, name: string, ofFamily: bool)
    ensures Declares(a, name, ofFamily) ==> Declares(a + b, name, ofFamily)
    ensures name !in Names(a) ==> (Declares(a + b, name, ofFamily) <==> Declares(b, name, ofFamily))
    ensures name !in Names(b) ==> (Declares(a + b, name, ofFamily) <==> Declares(a, name, ofFamily))
  {
    if a == [] {
      assert a + b == b;
      if Declares(b, name, ofFamily) { DeclaredName(b, name, ofFamily); }
    } else {
      assert (a + b)[1..] == a[1..] + b;
      assert Names(a) == {a[0].name} + Names(a[1..]) by { assert a == [a[0]] + a[1..]; }
      DeclaresAppended(a[1..], b, name, ofFamily);
    }
  }

  // A parameter of the family that a local type captures is in every scope of the family.
  lemma CapturedInScope(w: World, f: string, x: string, own: seq<Parameter>, use: Use)
    requires x in Types(w, f) && Declares(Scope(w, f, x), use.parameter, use.drawn != "")
    requires use.parameter !in Names(Types(w, f)[x].parameters)
    ensures Declares(ParametersOf(w, f) + own, use.parameter, use.drawn != "")
  {
    DeclaresAppended(ParametersOf(w, f), Types(w, f)[x].parameters, use.parameter, use.drawn != "");
    DeclaresAppended(ParametersOf(w, f), own, use.parameter, use.drawn != "");
  }

  // The scope is that of a type of the family.
  ghost predicate Extends(w: World, f: string, scope: seq<Parameter>) {
    exists own :: scope == ParametersOf(w, f) + own
  }

  // What the uses of an application's target become is in scope, if what fills them is.
  lemma SlotInScope(w: World, f: string, u: Table, from: string, slots: seq<Parameter>, use: Use, with: Bindings,
                    fills: map<string, set<Use>>, scope: seq<Parameter>)
    requires with.Keys == fills.Keys && Declares(slots, use.parameter, use.drawn != "")
    requires forall p :: p in with && Declares(slots, p, false) ==> InScope(scope, fills[p])
    requires use.parameter !in with && from == "" ==> Declares(scope, use.parameter, use.drawn != "")
    ensures InScope(scope, SlotUses(w, f, u, from, slots, use, with, fills, scope))
  {
    OneSort(slots, use.parameter);
    OneSort(scope, use.parameter);
  }

  lemma {:induction false} ApplicationInScope(w: World, f: string, u: Table, from: string, x: string, with: Bindings,
                                              fills: map<string, set<Use>>, scope: seq<Parameter>)
    requires with.Keys == fills.Keys && Extends(w, f, scope)
    requires var owner := if from == "" then f else from;
             && x in Types(w, owner) && InScope(Scope(w, owner, x), TargetUses(w, f, u, from, x))
             && (forall p :: p in with && Declares(Scope(w, owner, x), p, false) ==> InScope(scope, fills[p]))
             && (from == "" ==> Names(Types(w, owner)[x].parameters) <= with.Keys)
    ensures InScope(scope, ApplicationUses(w, f, u, from, x, with, fills, scope))
  {
    var owner := if from == "" then f else from;
    var own :| scope == ParametersOf(w, f) + own;
    forall use | use in TargetUses(w, f, u, from, x)
      ensures InScope(scope, SlotUses(w, f, u, from, Scope(w, owner, x), use, with, fills, scope))
    {
      if use.parameter !in with && from == "" { CapturedInScope(w, f, x, own, use); }
      SlotInScope(w, f, u, from, Scope(w, owner, x), use, with, fills, scope);
    }
  }

  // The table and the imports' hold only uses in scope.
  ghost predicate Grounded(w: World, f: string, u: Table) {
    && u.Keys <= Types(w, f).Keys && TableInScope(w, f, u)
    && f != "" && "" !in Imports(w, f) && (forall from <- Imports(w, f) :: UsesInScope(w, from))
    && forall t :: t in Types(w, f) ==> TypeAccepted(w, f, t)
  }

  lemma NamedInScope(w: World, f: string, u: Table, x: string, scope: seq<Parameter>)
    requires Grounded(w, f, u) && Extends(w, f, scope)
    requires Declares(scope, x, false) || (x in Types(w, f) && Types(w, f)[x].parameters == [])
    ensures InScope(scope, NamedUses(u, scope, x))
  {
    if !Declares(scope, x, false) {
      var own :| scope == ParametersOf(w, f) + own;
      forall use | use in At(u, x) ensures Declares(scope, use.parameter, use.drawn != "") {
        CapturedInScope(w, f, x, own, use);
      }
    }
  }

  lemma TargetInScope(w: World, f: string, u: Table, from: string, x: string)
    requires Grounded(w, f, u) && x in Types(w, if from == "" then f else from)
    ensures InScope(Scope(w, if from == "" then f else from, x), TargetUses(w, f, u, from, x))
  {
  }

  lemma {:induction false} ExprInScope(w: World, f: string, u: Table, e: Expr, scope: seq<Parameter>,
                                       walking: set<string>)
    requires Grounded(w, f, u) && Extends(w, f, scope) && Resolves(w, f, scope, e)
    ensures InScope(scope, ExprUses(w, f, u, e, scope, walking))
    decreases e
  {
    match e
    case Named(x) => NamedInScope(w, f, u, x, scope);
    case Imported(from, x) =>
      TargetInScope(w, f, u, from, x);
      ApplicationInScope(w, f, u, from, x, map[], map[], scope);
    case Array(items) => ExprInScope(w, f, u, items, scope, walking);
    case Map(values) => ExprInScope(w, f, u, values, scope, walking);
    case Nullable(inner) => ExprInScope(w, f, u, inner, scope, walking);
    case Apply(from, x, with) =>
      var owner := if from == "" then f else from;
      forall p | p in with && Declares(Scope(w, owner, x), p, false)
        ensures InScope(scope, ExprUses(w, f, u, with[p].typ, scope, walking))
      {
        OneSort(Scope(w, owner, x), p);
        ExprInScope(w, f, u, with[p].typ, scope, walking);
      }
      ArgumentsInScope(w, f, u, from, x, with, scope, walking);
    case Ref(entity, _) => assert TypeAccepted(w, f, entity);
    case Inline(_, _, fields, variants) =>
      forall i | 0 <= i < |fields| ensures InScope(scope, ExprUses(w, f, u, fields[i].typ, scope, walking)) {
        ExprInScope(w, f, u, fields[i].typ, scope, walking);
      }
      forall i | 0 <= i < |variants| ensures InScope(scope, ExprUses(w, f, u, variants[i].typ, scope, walking)) {
        ExprInScope(w, f, u, variants[i].typ, scope, walking);
      }
    case _ =>
  }

  lemma {:induction false} ArgumentsInScope(w: World, f: string, u: Table, from: string, x: string, with: Bindings,
                                            scope: seq<Parameter>, walking: set<string>)
    requires Grounded(w, f, u) && Extends(w, f, scope) && x in Types(w, if from == "" then f else from)
    requires var owner := if from == "" then f else from;
             && (from == "" ==> Names(Types(w, owner)[x].parameters) <= with.Keys)
             && forall p | p in with && Declares(Scope(w, owner, x), p, false) ::
                  InScope(scope, ExprUses(w, f, u, with[p].typ, scope, walking))
    ensures InScope(scope, ExprUses(w, f, u, Apply(from, x, with), scope, walking))
  {
    var fills := map p | p in with :: ExprUses(w, f, u, with[p].typ, scope, walking);
    TargetInScope(w, f, u, from, x);
    ApplicationInScope(w, f, u, from, x, with, fills, scope);
  }

  lemma {:induction false} EdgeInScope(w: World, f: string, u: Table, base: Base, scope: seq<Parameter>,
                                       walking: set<string>)
    requires Grounded(w, f, u) && Extends(w, f, scope) && EdgeResolves(w, f, scope, base)
    ensures InScope(scope, ExprUses(w, f, u, BaseExpr(base), scope, walking))
  {
    var (owner, x) := BaseOf(w, f, base).value;
    if base.applied {
      forall p | p in base.with && Declares(Scope(w, owner, x), p, false)
        ensures InScope(scope, ExprUses(w, f, u, base.with[p].typ, scope, walking))
      {
        OneSort(Scope(w, owner, x), p);
        ExprInScope(w, f, u, base.with[p].typ, scope, walking);
      }
      ArgumentsInScope(w, f, u, base.family, x, base.with, scope, walking);
    } else if base.family != "" {
      TargetInScope(w, f, u, base.family, x);
      ApplicationInScope(w, f, u, base.family, x, map[], map[], scope);
    } else {
      OwnNames(Types(w, f)[x].parameters);
      NamedInScope(w, f, u, x, scope);
    }
  }

  lemma OwnNames(parameters: seq<Parameter>)
    ensures Names(parameters) == {} ==> parameters == []
  {
    if parameters != [] { assert parameters[0].name in Names(parameters); }
  }

  lemma {:induction false} OwnInScope(a: seq<Parameter>, own: seq<Parameter>, i: nat)
    requires i < |own| && own[i].name !in Names(a)
    requires forall i, j :: 0 <= i < j < |own| ==> own[i].name != own[j].name
    ensures Declares(a + own, own[i].name, own[i].ofFamily)
  {
    DeclaresAppended(a, own, own[i].name, own[i].ofFamily);
    DeclaresAt(own, i);
  }

  lemma {:induction false} DeclaresAt(own: seq<Parameter>, i: nat)
    requires i < |own| && forall i, j :: 0 <= i < j < |own| ==> own[i].name != own[j].name
    ensures Declares(own, own[i].name, own[i].ofFamily)
  {
    if i > 0 { DeclaresAt(own[1..], i - 1); }
  }

  /** What an accepted type's equation yields from uses in scope is in scope. */
  lemma {:induction false} TypeInScope(w: World, f: string, u: Table, t: string)
    requires Grounded(w, f, u) && t in Types(w, f)
    ensures InScope(Scope(w, f, t), TypeUses(w, f, u, t))
  {
    var d, scope := Types(w, f)[t], Scope(w, f, t);
    var expressions := Expressions(d);
    assert Extends(w, f, scope);
    forall i | 0 <= i < |expressions| ensures InScope(scope, ExprUses(w, f, u, expressions[i], scope, {t})) {
      if i < |d.bases| {
        EdgeInScope(w, f, u, d.bases[i], scope, {t});
      } else {
        assert expressions[i] == Written(d)[i - |d.bases|];
        ExprInScope(w, f, u, expressions[i], scope, {t});
      }
    }
    forall p | p in d.parameters && !p.ofFamily ensures Declares(scope, p.name, false) {
      var i :| 0 <= i < |d.parameters| && d.parameters[i] == p;
      assert p.name in Names(d.parameters);
      OwnInScope(ParametersOf(w, f), d.parameters, i);
    }
  }

  // ---- The uses found are in scope: the least solution holds no others.

  ghost function Trimmed(w: World, f: string, u: Table): Table {
    map t | t in u && t in Types(w, f) :: set r | r in u[t] && Declares(Scope(w, f, t), r.parameter, r.drawn != "")
  }

  lemma TrimmedIsBelow(w: World, f: string, u: Table)
    requires Lists(w, f, u) && Grounded(w, f, map[])
    ensures var v := Trimmed(w, f, u); Below(v, u) && Lists(w, f, v) && Grounded(w, f, v)
  {
  }

  lemma TrimmedHolds(w: World, f: string, u: Table, t: string, uses: set<Use>)
    requires t in u && t in Types(w, f) && uses <= u[t] && InScope(Scope(w, f, t), uses)
    ensures uses <= Trimmed(w, f, u)[t]
  {
  }

  lemma {:induction false} TrimmedGrows(w: World, f: string, u: Table, t: string)
    requires Solves(w, f, u) && t in u && t in Types(w, f) && Below(Trimmed(w, f, u), u)
    ensures TypeUses(w, f, Trimmed(w, f, u), t) <= u[t]
  {
    TypeUsesGrow(w, f, Trimmed(w, f, u), u, t);
  }

  lemma {:induction false} TrimmedSolves(w: World, f: string, u: Table)
    requires Grounded(w, f, map[]) && Solves(w, f, u)
    ensures Solves(w, f, Trimmed(w, f, u))
  {
    var v := Trimmed(w, f, u);
    TrimmedIsBelow(w, f, u);
    forall t | t in v ensures TypeUses(w, f, v, t) <= v[t] {
      TrimmedGrows(w, f, u, t);
      TypeInScope(w, f, v, t);
      TrimmedHolds(w, f, u, t, TypeUses(w, f, v, t));
    }
  }

  /** In accepted families every use found for a type is of a parameter in the type's scope:
      drawn if a family fills it, whole if a type does. */
  lemma {:induction false} UsesAreInScope(w: World, families: set<string>, rank: map<string, nat>, f: string)
    requires (forall g <- families :: FamilyAccepted(w, g)) && Ordered(w, families, rank) && f in families
    ensures UsesInScope(w, f)
    decreases rank[f]
  {
    forall from | from in Imports(w, f) ensures UsesInScope(w, from) && from != "" {
      UsesAreInScope(w, families, rank, from);
    }
    assert FamilyAccepted(w, f);
    var u := w[f].uses;
    TrimmedSolves(w, f, u);
    assert Below(u, Trimmed(w, f, u));
  }

  // ---- A type needs nothing beyond the uses found for it.

  // What one use of an application's target comes to is among the application's.
  lemma MemberCovers(w: World, f: string, u: Table, from: string, x: string, with: Bindings,
                     fills: map<string, set<Use>>, scope: seq<Parameter>, use: Use)
    requires with.Keys == fills.Keys && (from != "" ==> from in Imports(w, f))
             && (from == "" ==> At(u, x) == Uses(w, f, x))
    requires var owner := if from == "" then f else from; x in Types(w, owner) && use in Uses(w, owner, x)
    ensures SlotUses(w, f, u, from, Scope(w, if from == "" then f else from, x), use, with, fills, scope)
            <= ApplicationUses(w, f, u, from, x, with, fills, scope)
  {
    assert use in TargetUses(w, f, u, from, x);
  }

  // That is the filling type's own uses, or a use in the scope.
  lemma SlotCovers(w: World, f: string, u: Table, from: string, slots: seq<Parameter>, use: Use, with: Bindings,
                   fills: map<string, set<Use>>, scope: seq<Parameter>)
    requires with.Keys == fills.Keys && Declares(slots, use.parameter, use.drawn != "")
    ensures use.parameter !in with && from == "" && use.parameter != ""
            && Declares(scope, use.parameter, use.drawn != "") ==>
              use in SlotUses(w, f, u, from, slots, use, with, fills, scope)
    ensures use.parameter in with && use.drawn == "" ==>
              SlotUses(w, f, u, from, slots, use, with, fills, scope) == fills[use.parameter]
    ensures use.parameter in with && use.drawn != "" && FillerName(with[use.parameter]) != ""
            && Declares(scope, FillerName(with[use.parameter]), true) ==>
              Use(FillerName(with[use.parameter]), use.drawn) in SlotUses(w, f, u, from, slots, use, with, fills, scope)
  {
    OneSort(slots, use.parameter);
    OneSort(scope, use.parameter);
  }

  // The family's own table and its imports' are in scope, and it carries its own.
  ghost predicate Settled(w: World, f: string) {
    f in w && UsesInScope(w, f) && Grounded(w, f, w[f].uses) && ParametersAccepted(w, f, ParametersOf(w, f))
  }

  // A scope of the family, and the uses found there; `walking` as the uses were found.
  ghost predicate Covers(w: World, f: string, e: Expr, scope: seq<Parameter>, walking: set<string>, uses: set<Use>) {
    f in w && Extends(w, f, scope) && ExprUses(w, f, w[f].uses, e, scope, walking) <= uses
  }

  // What each argument of an application uses.
  ghost function FillUses(w: World, f: string, with: Bindings, scope: seq<Parameter>, walking: set<string>):
    (fills: map<string, set<Use>>)
    requires f in w
    ensures fills.Keys == with.Keys
  {
    map p | p in with :: ExprUses(w, f, w[f].uses, with[p].typ, scope, walking)
  }

  // What one use of an application's target comes to is among the uses found.
  lemma {:induction false} SlotIsCovered(w: World, f: string, from: string, x: string, with: Bindings, use: Use,
                                         scope: seq<Parameter>, walking: set<string>, uses: set<Use>)
    requires f in w && Covers(w, f, Apply(from, x, with), scope, walking, uses)
             && (from != "" ==> from in Imports(w, f))
    requires var owner := if from == "" then f else from; x in Types(w, owner) && use in Uses(w, owner, x)
    ensures var owner := if from == "" then f else from;
            SlotUses(w, f, w[f].uses, from, Scope(w, owner, x), use, with, FillUses(w, f, with, scope, walking),
              scope) <= uses
  {
    var fills := FillUses(w, f, with, scope, walking);
    MemberCovers(w, f, w[f].uses, from, x, with, fills, scope, use);
    assert ApplicationUses(w, f, w[f].uses, from, x, with, fills, scope) ==
           ExprUses(w, f, w[f].uses, Apply(from, x, with), scope, walking);
  }

  // One use of what an application applies: filled as it should be, or captured.
  lemma {:induction false} ArgumentSuits(w: World, f: string, from: string, x: string, with: Bindings, use: Use,
                                         scope: seq<Parameter>, walking: set<string>, uses: set<Use>)
    requires Settled(w, f) && Covers(w, f, Apply(from, x, with), scope, walking, uses)
    requires from != "" ==> from in Imports(w, f)
    requires var owner := if from == "" then f else from;
             && x in Types(w, owner) && use in Uses(w, owner, x) && UsesInScope(w, owner)
             && DrawsPlain(w, owner, x, with)
             && Names(Types(w, owner)[x].parameters) <= with.Keys && (from != "" ==> use.parameter in with)
             && forall p <- with :: FillerResolves(w, f, scope, with[p], Declares(Scope(w, owner, x), p, true))
    requires use.parameter in with && use.drawn == "" && Covers(w, f, with[use.parameter].typ, scope, walking, uses)
             && with[use.parameter].typ != Absent && Resolves(w, f, scope, with[use.parameter].typ)
             ==> Within(w, f, uses, with[use.parameter].typ)
    ensures if use.parameter in with then Suits(w, f, uses, with[use.parameter], use.drawn)
            else from == "" && use in uses
  {
    var owner, u := if from == "" then f else from, w[f].uses;
    var fills := FillUses(w, f, with, scope, walking);
    SlotIsCovered(w, f, from, x, with, use, scope, walking, uses);
    SlotCovers(w, f, u, from, Scope(w, owner, x), use, with, fills, scope);
    OneSort(Scope(w, owner, x), use.parameter);
    if use.parameter !in with {
      var own :| scope == ParametersOf(w, f) + own;
      CapturedInScope(w, f, x, own, use);
      CapturedIsNamed(w, f, x, use);
    }
  }

  lemma CapturedIsNamed(w: World, f: string, x: string, use: Use)
    requires x in Types(w, f) && Declares(Scope(w, f, x), use.parameter, use.drawn != "")
    requires use.parameter !in Names(Types(w, f)[x].parameters)
    ensures use.parameter in Names(ParametersOf(w, f))
  {
    DeclaresAppended(ParametersOf(w, f), Types(w, f)[x].parameters, use.parameter, use.drawn != "");
    DeclaredName(ParametersOf(w, f), use.parameter, use.drawn != "");
  }

  lemma {:induction false} FamilyParameterDeclared(parameters: seq<Parameter>, q: string)
    requires q in OfFamily(parameters)
    requires forall i, j :: 0 <= i < j < |parameters| ==> parameters[i].name != parameters[j].name
    ensures Declares(parameters, q, true) && q in Names(parameters)
  {
    if parameters[0].ofFamily && parameters[0].name == q {
    } else {
      FamilyParameterDeclared(parameters[1..], q);
      assert Names(parameters[1..]) <= Names(parameters);
      if parameters[0].name == q { NamedAgain(parameters, q); }
    }
  }

  lemma NamedAgain(parameters: seq<Parameter>, q: string)
    requires parameters != [] && q in Names(parameters[1..])
    requires forall i, j :: 0 <= i < j < |parameters| ==> parameters[i].name != parameters[j].name
    ensures parameters[0].name != q
  {
    var i :| 0 <= i < |parameters[1..]| && parameters[1..][i].name == q;
    assert parameters[i + 1].name == q;
  }

  // A plain import uses the family's one family parameter as the import uses its own.
  lemma {:induction false} PlainIsWithin(w: World, f: string, from: string, x: string, scope: seq<Parameter>,
                                         walking: set<string>, uses: set<Use>)
    requires Settled(w, f) && Covers(w, f, Imported(from, x), scope, walking, uses) && PlainAdmitted(w, f, from, x)
    ensures Within(w, f, uses, Imported(from, x))
  {
    var one, u := FamilyParameters(w, f), w[f].uses;
    if |one| == 1 {
      var own :| scope == ParametersOf(w, f) + own;
      FamilyParameterDeclared(ParametersOf(w, f), one[0]);
      DeclaresAppended(ParametersOf(w, f), own, one[0], true);
      forall use | use in Uses(w, from, x) && use.drawn != "" ensures Use(one[0], use.drawn) in uses {
        assert use in TargetUses(w, f, u, from, x);
        assert Declares(Scope(w, from, x), use.parameter, true);
        assert Use(one[0], use.drawn) in SlotUses(w, f, u, from, Scope(w, from, x), use, map[], map[], scope);
        assert Use(one[0], use.drawn) in ApplicationUses(w, f, u, from, x, map[], map[], scope);
      }
    }
  }

  /** What resolves in a scope is within the uses found there. */
  lemma {:induction false} ResolvedIsWithin(w: World, f: string, e: Expr, scope: seq<Parameter>, walking: set<string>,
                                            uses: set<Use>)
    requires Settled(w, f) && Covers(w, f, e, scope, walking, uses) && Resolves(w, f, scope, e)
    ensures Within(w, f, uses, e)
    decreases e
  {
    match e
    case Imported(from, x) => PlainIsWithin(w, f, from, x, scope, walking, uses);
    case Array(items) => ResolvedIsWithin(w, f, items, scope, walking, uses);
    case Map(values) => ResolvedIsWithin(w, f, values, scope, walking, uses);
    case Nullable(inner) => ResolvedIsWithin(w, f, inner, scope, walking, uses);
    case Apply(from, x, with) =>
      forall use | use in Uses(w, if from == "" then f else from, x)
        ensures if use.parameter in with then Suits(w, f, uses, with[use.parameter], use.drawn)
                else from == "" && use in uses
      {
        if use.parameter in with && Resolves(w, f, scope, with[use.parameter].typ)
          && Covers(w, f, with[use.parameter].typ, scope, walking, uses) {
          ResolvedIsWithin(w, f, with[use.parameter].typ, scope, walking, uses);
        }
        ArgumentSuits(w, f, from, x, with, use, scope, walking, uses);
      }
    case Inline(_, _, fields, variants) =>
      forall i | 0 <= i < |fields| ensures Within(w, f, uses, fields[i].typ) {
        MemberOfInline(w, f, e, scope, walking);
        ResolvedIsWithin(w, f, fields[i].typ, scope, walking, uses);
      }
      forall i | 0 <= i < |variants| ensures Within(w, f, uses, variants[i].typ) {
        MemberOfInline(w, f, e, scope, walking);
        ResolvedIsWithin(w, f, variants[i].typ, scope, walking, uses);
      }
    case _ =>
  }

  lemma MemberOfInline(w: World, f: string, e: Expr, scope: seq<Parameter>, walking: set<string>)
    requires e.Inline? && f in w
    ensures var u := w[f].uses;
            && (forall i :: 0 <= i < |e.fields| ==>
               ExprUses(w, f, u, e.fields[i].typ, scope, walking) <= ExprUses(w, f, u, e, scope, walking))
            && forall i :: 0 <= i < |e.variants| ==>
               ExprUses(w, f, u, e.variants[i].typ, scope, walking) <= ExprUses(w, f, u, e, scope, walking)
  {
  }

  // An edge that resolves fills all its base uses, as it is used.
  lemma {:induction false} ResolvedEdgeIsChecked(w: World, f: string, base: Base, scope: seq<Parameter>,
                                                 walking: set<string>, uses: set<Use>)
    requires Settled(w, f) && Covers(w, f, BaseExpr(base), scope, walking, uses) && EdgeResolves(w, f, scope, base)
    requires var (owner, x) := BaseOf(w, f, base).value; Settled(w, owner)
    ensures EdgeChecked(w, f, uses, base)
  {
    var (owner, x) := BaseOf(w, f, base).value;
    var with, wanted := base.with, Uses(w, owner, x);
    assert TypeAccepted(w, owner, x);
    forall use | use in wanted ensures use.parameter in with && Suits(w, f, uses, with[use.parameter], use.drawn) {
      assert use.parameter in Parameters(wanted);
      assert base.with != map[];
      if Resolves(w, f, scope, with[use.parameter].typ) && Covers(w, f, with[use.parameter].typ, scope, walking, uses) {
        ResolvedIsWithin(w, f, with[use.parameter].typ, scope, walking, uses);
      }
      ArgumentSuits(w, f, base.family, x, with, use, scope, walking, uses);
    }
    forall p | p in Wanted(w, owner, x, false) ensures p != "" && p !in Types(w, owner) {
      WantedIsNamed(w, owner, x, p);
    }
  }

  lemma WantedIsNamed(w: World, f: string, x: string, p: string)
    requires Settled(w, f) && x in Types(w, f) && p in Wanted(w, f, x, false)
    ensures p != "" && p !in Types(w, f)
  {
    var own := Types(w, f)[x].parameters;
    assert TypeAccepted(w, f, x);
    if p !in Names(own) {
      var use :| use in Uses(w, f, x) && use.parameter == p;
      CapturedIsNamed(w, f, x, use);
    }
  }

  /** In accepted families every type is as substitution needs it: its expressions and edges
      need only the uses found for it, and its edges fill all their bases use. */
  lemma {:induction false} AcceptedIsChecked(w: World, families: set<string>, f: string, t: string)
    requires Accepted(w, families) && f in families && t in Types(w, f)
    ensures DeclarationChecked(w, f, t)
    ensures forall e :: e in Written(Types(w, f)[t]) ==> Within(w, f, Uses(w, f, t), e)
  {
    AcceptedIsSettled(w, families);
    var d, scope, uses := Types(w, f)[t], Scope(w, f, t), Uses(w, f, t);
    assert TypeAccepted(w, f, t);
    forall e | e in Written(d) ensures Within(w, f, uses, e) {
      WrittenIsCovered(w, f, t, e);
      ResolvedIsWithin(w, f, e, scope, {t}, uses);
    }
    forall i | 0 <= i < |d.fields| ensures Within(w, f, uses, d.fields[i].typ) {
      assert Typed(d.fields)[i] in Written(d);
    }
    forall i | 0 <= i < |d.bases| ensures EdgeChecked(w, f, uses, d.bases[i]) {
      assert BaseExpr(d.bases[i]) == Expressions(d)[i];
      WrittenIsCovered(w, f, t, BaseExpr(d.bases[i]));
      var (owner, x) := BaseOf(w, f, d.bases[i]).value;
      ResolvedEdgeIsChecked(w, f, d.bases[i], scope, {t}, uses);
    }
    forall p | p in Parameters(uses) ensures p != "" {
      WantedIsNamed(w, f, t, p);
    }
  }

  lemma {:induction false} AcceptedIsSettled(w: World, families: set<string>)
    requires Accepted(w, families)
    ensures forall f <- families ::
              Settled(w, f) && Solves(w, f, w[f].uses) && forall from <- Imports(w, f) :: from in families
  {
    var rank :| Ordered(w, families, rank);
    forall f | f in families ensures UsesInScope(w, f) && f != "" {
      UsesAreInScope(w, families, rank, f);
      assert FamilyAccepted(w, f);
    }
    forall f | f in families ensures Settled(w, f) && Solves(w, f, w[f].uses) {
      assert FamilyAccepted(w, f);
    }
  }

  lemma {:induction false} WrittenIsCovered(w: World, f: string, t: string, e: Expr)
    requires f in w && t in Types(w, f) && Solves(w, f, w[f].uses) && e in Expressions(Types(w, f)[t])
    ensures Covers(w, f, e, Scope(w, f, t), {t}, Uses(w, f, t))
  {
    var expressions := Expressions(Types(w, f)[t]);
    var i :| 0 <= i < |expressions| && expressions[i] == e;
    assert forall r :: r in ExprUses(w, f, w[f].uses, expressions[i], Scope(w, f, t), {t}) ==>
           r in TypeUses(w, f, w[f].uses, t);
  }
}
