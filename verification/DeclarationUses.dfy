/**
 Which uses of parameters each type of a family makes, own and transitive: the equations
 behind what a family is generic in, given what its imports already are.
 */
module DeclarationUses {
  import opened DeclarationModel

  // Uses by type, as far as they are known. Order is left to rendering: a table is
  // compared by the uses it holds.
  type Table = map<string, set<Use>>

  function At(u: Table, name: string): set<Use> { if name in u then u[name] else {} }

  // The first parameter of that name; a family's come before a type's own.
  predicate Declares(scope: seq<Parameter>, name: string, ofFamily: bool) {
    scope != [] && if scope[0].name == name then scope[0].ofFamily == ofFamily else Declares(scope[1..], name, ofFamily)
  }

  function ParametersOf(w: World, family: string): seq<Parameter> { if family in w then w[family].parameters else [] }

  function Scope(w: World, family: string, t: string): seq<Parameter>
    requires t in Types(w, family)
  {
    ParametersOf(w, family) + Types(w, family)[t].parameters
  }

  function NamedUses(u: Table, scope: seq<Parameter>, x: string): set<Use> {
    if Declares(scope, x, false) then {Use(x, "")} else At(u, x)
  }

  function DrawnUses(scope: seq<Parameter>, p: string, drawn: string): set<Use> {
    if Declares(scope, p, true) then {Use(p, drawn)} else {}
  }

  // What an argument makes of one use of the parameter it fills: forwarded through a
  // family slot, or the uses of the type filling a type slot.
  function FilledUses(u: Table, scope: seq<Parameter>, ofFamily: bool, name: string, typ: set<Use>,
                      drawn: string): set<Use> {
    if !ofFamily then typ else if name != "" then DrawnUses(scope, name, drawn) else {}
  }

  // What an application makes of one use of its target.
  function SlotUses(w: World, f: string, u: Table, from: string, slots: seq<Parameter>, use: Use,
                    with: Bindings, fills: map<string, set<Use>>, scope: seq<Parameter>): set<Use>
    requires with.Keys == fills.Keys
  {
    var p, one := use.parameter, FamilyParameters(w, f);
    if !Declares(slots, p, true) && !Declares(slots, p, false) then {}
    else if p in with then FilledUses(u, scope, Declares(slots, p, true), FillerName(with[p]), fills[p], use.drawn)
    else if from == "" then FilledUses(u, scope, Declares(slots, p, true), p, NamedUses(u, scope, p), use.drawn)
    else if Declares(slots, p, true) && |one| == 1 then FilledUses(u, scope, true, one[0], {}, use.drawn)
    else {}
  }

  function TargetUses(w: World, f: string, u: Table, from: string, x: string): set<Use> {
    if from == "" then At(u, x) else if from in Imports(w, f) then Uses(w, from, x) else {}
  }

  function ApplicationUses(w: World, f: string, u: Table, from: string, x: string, with: Bindings,
                           fills: map<string, set<Use>>, scope: seq<Parameter>): set<Use>
    requires with.Keys == fills.Keys
  {
    var owner := if from == "" then f else from;
    if x !in Types(w, owner) then {}
    else
      set use, r | use in TargetUses(w, f, u, from, x)
                   && r in SlotUses(w, f, u, from, Scope(w, owner, x), use, with, fills, scope) :: r
  }

  // An entity is referred to by its key, one of its fields.
  function KeyType(d: Declaration): Expr { KeyAmong(d.fields, d.key) }

  function KeyAmong(fields: seq<Member>, key: string): Expr {
    if fields == [] then Absent else if fields[0].name == key then fields[0].typ else KeyAmong(fields[1..], key)
  }

  /** The uses one expression makes in a scope; `walking` holds the entities being walked. */
  function ExprUses(w: World, f: string, u: Table, e: Expr, scope: seq<Parameter>, walking: set<string>): set<Use>
    decreases Types(w, f).Keys - walking, e
  {
    match e
    case Named(x) => NamedUses(u, scope, x)
    case Drawn(p, x) => DrawnUses(scope, p, x)
    case Array(items) => ExprUses(w, f, u, items, scope, walking)
    case Map(values) => ExprUses(w, f, u, values, scope, walking)
    case Nullable(inner) => ExprUses(w, f, u, inner, scope, walking)
    case Imported(from, x) => ApplicationUses(w, f, u, from, x, map[], map[], scope)
    case Apply(from, x, with) =>
      ApplicationUses(w, f, u, from, x, with, map p | p in with ::
        ExprUses(w, f, u, with[p].typ, scope, walking), scope)
    case Ref(entity, _) =>
      if entity in Types(w, f) && entity !in walking
      then ExprUses(w, f, u, KeyType(Types(w, f)[entity]), scope, walking + {entity}) else {}
    case Inline(_, _, fields, variants) =>
      (set i, r | 0 <= i < |fields| && r in ExprUses(w, f, u, fields[i].typ, scope, walking) :: r)
      + (set i, r | 0 <= i < |variants| && r in ExprUses(w, f, u, variants[i].typ, scope, walking) :: r)
    case _ => {}
  }

  /** One type's equation: its own type parameters, and all its expressions use. */
  function TypeUses(w: World, f: string, u: Table, t: string): set<Use>
    requires t in Types(w, f)
  {
    var d := Types(w, f)[t];
    var expressions := Expressions(d);
    (set p | p in d.parameters && !p.ofFamily :: Use(p.name, ""))
    + set i, r | 0 <= i < |expressions| && r in ExprUses(w, f, u, expressions[i], Scope(w, f, t), {t}) :: r
  }

  // ---- Monotone, and bounded by the names there are.

  predicate Below(a: Table, b: Table) { forall t :: t in a ==> a[t] <= At(b, t) }

  // The names parameters have, and the members expressions draw.
  datatype Bounds = Bounds(names: set<string>, drawn: set<string>)

  predicate Inside(bounds: Bounds, uses: set<Use>) {
    forall r <- uses :: r.parameter in bounds.names && r.drawn in bounds.drawn
  }

  function DrawnIn(e: Expr): set<string> {
    match e
    case Drawn(_, x) => {x}
    case Array(items) => DrawnIn(items)
    case Map(values) => DrawnIn(values)
    case Nullable(inner) => DrawnIn(inner)
    case Apply(_, _, with) => set p, x | p in with && x in DrawnIn(with[p].typ) :: x
    case Inline(_, _, fields, variants) =>
      (set i, x | 0 <= i < |fields| && x in DrawnIn(fields[i].typ) :: x)
      + (set i, x | 0 <= i < |variants| && x in DrawnIn(variants[i].typ) :: x)
    case _ => {}
  }

  function Names(scope: seq<Parameter>): set<string> { set p | p in scope :: p.name }

  predicate TypeBounded(bounds: Bounds, d: Declaration) {
    Names(d.parameters) <= bounds.names && forall e :: e in Expressions(d) ==> DrawnIn(e) <= bounds.drawn
  }

  ghost predicate FamilyBounded(w: World, f: string, bounds: Bounds) {
    && "" in bounds.drawn && Names(ParametersOf(w, f)) <= bounds.names
    && (forall from, x, use :: from in Imports(w, f) && use in Uses(w, from, x) ==> use.drawn in bounds.drawn)
    && forall t :: t in Types(w, f) ==> TypeBounded(bounds, Types(w, f)[t])
  }

  function BoundsOf(w: World, f: string): Bounds {
    Bounds(
      Names(ParametersOf(w, f)) + (set t, n | t in Types(w, f) && n in Names(Types(w, f)[t].parameters) :: n),
      {""}
      + (set t, e, x | t in Types(w, f) && e in Expressions(Types(w, f)[t]) && x in DrawnIn(e) :: x)
      + set from, x, use | from in Imports(w, f) && from in w && x in w[from].uses
        && use in w[from].uses[x] :: use.drawn)
  }

  lemma BoundsHold(w: World, f: string)
    ensures FamilyBounded(w, f, BoundsOf(w, f))
  {
    var bounds := BoundsOf(w, f);
    forall t | t in Types(w, f) ensures TypeBounded(bounds, Types(w, f)[t]) {
    }
  }

  lemma {:induction false} DeclaredName(scope: seq<Parameter>, name: string, ofFamily: bool)
    requires Declares(scope, name, ofFamily)
    ensures name in Names(scope)
  {
    if scope[0].name != name { DeclaredName(scope[1..], name, ofFamily); }
  }

  lemma DrawnUsesBounded(bounds: Bounds, scope: seq<Parameter>, p: string, drawn: string)
    requires Names(scope) <= bounds.names && drawn in bounds.drawn
    ensures Inside(bounds, DrawnUses(scope, p, drawn))
  {
    if Declares(scope, p, true) { DeclaredName(scope, p, true); }
  }

  lemma NamedUsesGrow(bounds: Bounds, a: Table, b: Table, scope: seq<Parameter>, x: string)
    requires Below(a, b) && "" in bounds.drawn && Names(scope) <= bounds.names && Inside(bounds, At(b, x))
    ensures NamedUses(a, scope, x) <= NamedUses(b, scope, x) && Inside(bounds, NamedUses(b, scope, x))
  {
    if Declares(scope, x, false) { DeclaredName(scope, x, false); }
    assert At(a, x) <= At(b, x);
  }

  ghost predicate TableBounded(bounds: Bounds, u: Table) { forall t :: t in u ==> Inside(bounds, u[t]) }

  lemma SlotUsesGrow(w: World, f: string, bounds: Bounds, a: Table, b: Table, from: string, slots: seq<Parameter>,
                     use: Use, 
                     with: Bindings, fills: map<string, set<Use>>, more: map<string, set<Use>>, scope: seq<Parameter>)
    requires Below(a, b) && TableBounded(bounds, b) && "" in bounds.drawn && Names(scope) <= bounds.names
             && use.drawn in bounds.drawn
    requires with.Keys == fills.Keys == more.Keys && forall p :: p in fills ==>
             fills[p] <= more[p] && Inside(bounds, more[p])
    ensures SlotUses(w, f, a, from, slots, use, with, fills, scope) <=
            SlotUses(w, f, b, from, slots, use, with, more, scope)
    ensures Inside(bounds, SlotUses(w, f, b, from, slots, use, with, more, scope))
  {
    var p, one := use.parameter, FamilyParameters(w, f);
    NamedUsesGrow(bounds, a, b, scope, p);
    DrawnUsesBounded(bounds, scope, p, use.drawn);
    if |one| == 1 { DrawnUsesBounded(bounds, scope, one[0], use.drawn); }
    if p in with { DrawnUsesBounded(bounds, scope, FillerName(with[p]), use.drawn); }
  }

  lemma ApplicationUsesGrow(w: World, f: string, bounds: Bounds, a: Table, b: Table, from: string, x: string,
                            with: Bindings, fills: map<string, set<Use>>, more: map<string, set<Use>>,
                            scope: seq<Parameter>)
    requires Below(a, b) && TableBounded(bounds, b) && FamilyBounded(w, f, bounds) && Names(scope) <= bounds.names
    requires with.Keys == fills.Keys == more.Keys && forall p :: p in fills ==>
             fills[p] <= more[p] && Inside(bounds, more[p])
    ensures ApplicationUses(w, f, a, from, x, with, fills, scope) <=
            ApplicationUses(w, f, b, from, x, with, more, scope)
    ensures Inside(bounds, ApplicationUses(w, f, b, from, x, with, more, scope))
  {
    var owner := if from == "" then f else from;
    if x in Types(w, owner) {
      assert At(a, x) <= At(b, x);
      assert TargetUses(w, f, a, from, x) <= TargetUses(w, f, b, from, x);
      forall use | use in TargetUses(w, f, b, from, x)
        ensures SlotUses(w, f, a, from, Scope(w, owner, x), use, with, fills, scope) <=
                SlotUses(w, f, b, from, Scope(w, owner, x), use, with, more, scope)
        ensures Inside(bounds, SlotUses(w, f, b, from, Scope(w, owner, x), use, with, more, scope))
      {
        SlotUsesGrow(w, f, bounds, a, b, from, Scope(w, owner, x), use, with, fills, more, scope);
      }
    }
  }

  ghost predicate Grows(w: World, f: string, bounds: Bounds, a: Table, b: Table, e: Expr, scope: seq<Parameter>,
                        walking: set<string>) {
    && ExprUses(w, f, a, e, scope, walking) <= ExprUses(w, f, b, e, scope, walking)
    && Inside(bounds, ExprUses(w, f, b, e, scope, walking))
  }

  ghost predicate Ready(w: World, f: string, bounds: Bounds, a: Table, b: Table, scope: seq<Parameter>) {
    Below(a, b) && TableBounded(bounds, b) && FamilyBounded(w, f, bounds) && Names(scope) <= bounds.names
  }

  lemma {:induction false} UsesGrow(w: World, f: string, bounds: Bounds, a: Table, b: Table, e: Expr,
                                    scope: seq<Parameter>, walking: set<string>)
    requires Ready(w, f, bounds, a, b, scope) && DrawnIn(e) <= bounds.drawn
    ensures Grows(w, f, bounds, a, b, e, scope, walking)
    decreases Types(w, f).Keys - walking, e
  {
    match e
    case Named(x) => NamedUsesGrow(bounds, a, b, scope, x);
    case Drawn(p, x) => DrawnUsesBounded(bounds, scope, p, x);
    case Array(items) => UsesGrow(w, f, bounds, a, b, items, scope, walking);
    case Map(values) => UsesGrow(w, f, bounds, a, b, values, scope, walking);
    case Nullable(inner) => UsesGrow(w, f, bounds, a, b, inner, scope, walking);
    case Imported(from, x) => ApplicationUsesGrow(w, f, bounds, a, b, from, x, map[], map[], map[], scope);
    case Apply(_, _, with) =>
      forall p | p in with ensures Grows(w, f, bounds, a, b, with[p].typ, scope, walking) {
        assert forall x :: x in DrawnIn(with[p].typ) ==> x in DrawnIn(e);
        UsesGrow(w, f, bounds, a, b, with[p].typ, scope, walking);
      }
      ApplyGrows(w, f, bounds, a, b, e, scope, walking);
    case Ref(entity, _) =>
      if entity in Types(w, f) && entity !in walking {
        var d := Types(w, f)[entity];
        KeyIsDeclared(d);
        assert TypeBounded(bounds, d);
        UsesGrow(w, f, bounds, a, b, KeyType(d), scope, walking + {entity});
      }
    case Inline(_, _, fields, variants) =>
      forall m | m in fields + variants ensures Grows(w, f, bounds, a, b, m.typ, scope, walking) {
        InlineDrawn(e, m);
        UsesGrow(w, f, bounds, a, b, m.typ, scope, walking);
      }
      InlineGrows(w, f, bounds, a, b, e, scope, walking);
    case _ =>
  }

  lemma InlineDrawn(e: Expr, m: Member)
    requires e.Inline? && m in e.fields + e.variants
    ensures DrawnIn(m.typ) <= DrawnIn(e)
  {
    if m in e.fields {
      var i :| 0 <= i < |e.fields| && e.fields[i] == m;
      assert forall x :: x in DrawnIn(e.fields[i].typ) ==> x in DrawnIn(e);
    } else {
      var i :| 0 <= i < |e.variants| && e.variants[i] == m;
      assert forall x :: x in DrawnIn(e.variants[i].typ) ==> x in DrawnIn(e);
    }
  }

  // An entity's key type is one of its expressions, or absent.
  lemma KeyIsDeclared(d: Declaration)
    ensures KeyType(d) == Absent || KeyType(d) in Expressions(d)
  {
    KeyAmongTyped(d.fields, d.key);
    assert forall e :: e in Typed(d.fields) ==> e in Expressions(d);
  }

  lemma {:induction false} KeyAmongTyped(fields: seq<Member>, key: string)
    ensures KeyAmong(fields, key) == Absent || KeyAmong(fields, key) in Typed(fields)
  {
    if fields != [] {
      KeyAmongTyped(fields[1..], key);
      assert Typed(fields) == [fields[0].typ] + Typed(fields[1..]);
    }
  }

  lemma ApplyGrows(w: World, f: string, bounds: Bounds, a: Table, b: Table, e: Expr, scope: seq<Parameter>,
                   walking: set<string>)
    requires Ready(w, f, bounds, a, b, scope) && e.Apply?
             && forall p | p in e.with :: Grows(w, f, bounds, a, b, e.with[p].typ, scope, walking)
    ensures Grows(w, f, bounds, a, b, e, scope, walking)
  {
    ApplicationUsesGrow(w, f, bounds, a, b, e.applyFamily, e.applied, e.with,
                        map p | p in e.with :: ExprUses(w, f, a, e.with[p].typ, scope, walking),
                        map p | p in e.with :: ExprUses(w, f, b, e.with[p].typ, scope, walking), scope);
  }

  lemma InlineGrows(w: World, f: string, bounds: Bounds, a: Table, b: Table, e: Expr, scope: seq<Parameter>,
                    walking: set<string>)
    requires e.Inline? && forall m | m in e.fields + e.variants :: Grows(w, f, bounds, a, b, m.typ, scope, walking)
    ensures Grows(w, f, bounds, a, b, e, scope, walking)
  {
    forall i | 0 <= i < |e.fields| ensures Grows(w, f, bounds, a, b, e.fields[i].typ, scope, walking) {
      assert e.fields[i] in e.fields + e.variants;
    }
    forall i | 0 <= i < |e.variants| ensures Grows(w, f, bounds, a, b, e.variants[i].typ, scope, walking) {
      assert e.variants[i] in e.fields + e.variants;
    }
  }

  /** More known uses never take one away, and only names there are turn up. */
  lemma TypeUsesGrow(w: World, f: string, a: Table, b: Table, t: string)
    requires t in Types(w, f) && Below(a, b) && TableBounded(BoundsOf(w, f), b)
    ensures TypeUses(w, f, a, t) <= TypeUses(w, f, b, t) && Inside(BoundsOf(w, f), TypeUses(w, f, b, t))
  {
    var bounds, d := BoundsOf(w, f), Types(w, f)[t];
    BoundsHold(w, f);
    assert TypeBounded(bounds, d);
    var scope, expressions := Scope(w, f, t), Expressions(d);
    assert Names(scope) <= bounds.names;
    forall i | 0 <= i < |expressions| ensures Grows(w, f, bounds, a, b, expressions[i], scope, {t}) {
      assert expressions[i] in expressions;
      UsesGrow(w, f, bounds, a, b, expressions[i], scope, {t});
    }
    assert forall p :: p in d.parameters ==> p.name in Names(d.parameters);
  }

  // ---- Solutions.

  // Every type of the family is listed, within bounds.
  ghost predicate Lists(w: World, f: string, u: Table) { u.Keys == Types(w, f).Keys && TableBounded(BoundsOf(w, f), u) }

  ghost predicate Solves(w: World, f: string, u: Table) {
    Lists(w, f, u) && forall t :: t in u ==> TypeUses(w, f, u, t) <= u[t]
  }

  ghost predicate Supported(w: World, f: string, u: Table) {
    Lists(w, f, u) && forall t :: t in u ==> u[t] <= TypeUses(w, f, u, t)
  }

  ghost predicate Least(w: World, f: string, u: Table) {
    forall v: Table :: Solves(w, f, v) ==> Below(u, v)
  }

  // The first types named satisfy their equations.
  ghost predicate Settled(w: World, f: string, u: Table, names: seq<string>, n: nat) {
    forall j :: 0 <= j < n <= |names| && names[j] in u && names[j] in Types(w, f) ==>
      TypeUses(w, f, u, names[j]) == u[names[j]]
  }

  // What a table may still come to hold.
  ghost function Room(w: World, f: string, u: Table): set<(string, Use)> {
    var bounds := BoundsOf(w, f);
    set t, n, d | t in u && n in bounds.names && d in bounds.drawn && Use(n, d) !in u[t] :: (t, Use(n, d))
  }
}
