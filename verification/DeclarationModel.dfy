/**
 Type expressions as declarations write them, the families they are written in, and
 what an expression denotes: a closed term, given what fills the parameters in scope.
 */
module DeclarationModel {
  // ---- Expressions.

  datatype Expr =
    | Absent
    | Primitive(primitive: string)
    | Named(named: string)
    | Imported(importedFamily: string, importedName: string)
    | Drawn(parameter: string, drawn: string)
    | Array(items: Expr)
    | Map(values: Expr)
    | Nullable(inner: Expr)
    | Literal(literal: string)
    | Ref(entity: string, refFamily: string)
    | Apply(applyFamily: string, applied: string, with: map<string, Filler>)
    | Inline(kind: string, own: seq<string>, fields: seq<Member>, variants: seq<Member>)

  datatype Member = Member(name: string, typ: Expr)

  // What fills a parameter: a type expression or the name of a family.
  datatype Filler = Filler(typ: Expr, family: string)

  type Bindings = map<string, Filler>

  function FillerName(filler: Filler): string {
    if filler.typ.Named? then filler.typ.named else ""
  }

  // ---- Families.

  // A parameter used as a type, or drawn at a type of its family.
  datatype Use = Use(parameter: string, drawn: string)

  datatype Base = Base(family: string, name: string, applied: bool, with: Bindings)

  datatype Kind = Record | Entity | Enum | Union | Alias | Callable

  // A parameter is filled by a type, or by a family of some tier.
  datatype Parameter = Parameter(name: string, ofFamily: bool)

  datatype Declaration = Declaration(
    kind: Kind,
    key: string,
    parameters: seq<Parameter>,
    bases: seq<Base>,
    fields: seq<Member>,
    alias: Expr,
    request: Expr,
    result: Expr,
    variants: seq<Member>)

  // `uses` records, per type, the parameters it needs filled, its own included.
  datatype Family = Family(
    types: map<string, Declaration>,
    imports: set<string>,
    parameters: seq<Parameter>,
    uses: map<string, set<Use>>)

  type World = map<string, Family>

  function Types(w: World, family: string): map<string, Declaration> {
    if family in w then w[family].types else map[]
  }

  function Uses(w: World, family: string, name: string): set<Use> {
    if family in w && name in w[family].uses then w[family].uses[name] else {}
  }

  // The family's parameters that a family fills, in declaration order.
  function FamilyParameters(w: World, family: string): seq<string> {
    if family in w then OfFamily(w[family].parameters) else []
  }

  function OfFamily(parameters: seq<Parameter>): seq<string> {
    if parameters == [] then []
    else (if parameters[0].ofFamily then [parameters[0].name] else []) + OfFamily(parameters[1..])
  }

  function Imports(w: World, family: string): set<string> { if family in w then w[family].imports else {} }

  // An inheritance edge as the reference or application it is.
  function BaseExpr(base: Base): Expr {
    if base.applied then Apply(base.family, base.name, base.with)
    else if base.family != "" then Imported(base.family, base.name)
    else Named(base.name)
  }

  // Every expression a type declares at the top of its own structure.
  function Expressions(d: Declaration): seq<Expr> {
    seq(|d.bases|, i requires 0 <= i < |d.bases| => BaseExpr(d.bases[i]))
    + Typed(d.fields) + [d.alias, d.request, d.result] + Typed(d.variants)
  }

  function Typed(members: seq<Member>): seq<Expr> {
    seq(|members|, i requires 0 <= i < |members| => members[i].typ)
  }

  function Parameters(uses: set<Use>): set<string> {
    set use | use in uses :: use.parameter
  }

  // ---- What expressions denote.

  datatype Term =
    | Nothing
    | Scalar(scalar: string)
    | Text(text: string)
    | Declared(family: string, name: string, arguments: Env)
    | List(items: Term)
    | Dictionary(values: Term)
    | OrNull(inner: Term)
    | Key(keyFamily: string, entity: string)
    | Shape(kind: string, fields: seq<Part>, variants: seq<Part>)
    | Ill

  datatype Part = Part(name: string, typ: Term)

  datatype Value = TypeValue(typ: Term) | FamilyValue(family: string)

  type Env = map<string, Value>

  // What fills the family's one family parameter, if it has just one.
  function OneFamily(w: World, family: string, env: Env): seq<Value> {
    var parameters := FamilyParameters(w, family);
    if |parameters| == 1 && parameters[0] in env then [env[parameters[0]]] else []
  }

  // A plain imported generic takes that in its family slots.
  function Inferred(w: World, family: string, env: Env, uses: set<Use>): Env {
    var one := OneFamily(w, family, env);
    if one == [] then map[] else map use | use in uses && use.drawn != "" :: use.parameter := one[0]
  }

  // The parameters a local generic type captures from the scope it is named in.
  function Captured(env: Env, uses: set<Use>, supplied: set<string>): Env {
    map p | p in Parameters(uses) && p in env && p !in supplied :: env[p]
  }

  /** What an expression written in a family means where env fills its parameters. An argument
      for a parameter the applied type never uses means nothing. */
  function Denote(w: World, family: string, env: Env, e: Expr): Term
    decreases e
  {
    match e
    case Absent => Nothing
    case Primitive(p) => Scalar(p)
    case Literal(l) => Text(l)
    case Named(x) =>
      if x in env then (if env[x].TypeValue? then env[x].typ else Ill)
      else if x in Types(w, family) then Declared(family, x, Captured(env, Uses(w, family, x), {}))
      else Ill
    case Imported(from, x) => Declared(from, x, Inferred(w, family, env, Uses(w, from, x)))
    case Drawn(p, x) =>
      if p in env && env[p].FamilyValue? then Declared(env[p].family, x, map[]) else Ill
    case Array(items) => List(Denote(w, family, env, items))
    case Map(values) => Dictionary(Denote(w, family, env, values))
    case Nullable(inner) => OrNull(Denote(w, family, env, inner))
    case Ref(entity, from) => Key(if from == "" then family else from, entity)
    case Apply(from, x, with) =>
      var wanted := Parameters(Uses(w, if from == "" then family else from, x));
      var arguments := map p | p in with && p in wanted :: DenoteFiller(w, family, env, with[p]);
      if from == "" then Declared(family, x, Captured(env, Uses(w, family, x), with.Keys) + arguments)
      else Declared(from, x, arguments)
    case Inline(kind, _, fields, variants) =>
      Shape(kind,
            seq(|fields|, i requires 0 <= i < |fields| => Part(fields[i].name, Denote(w, family, env, fields[i].typ))),
            seq(|variants|, i requires 0 <= i < |variants| =>
              Part(variants[i].name, Denote(w, family, env, variants[i].typ))))
  }

  function DenoteFiller(w: World, family: string, env: Env, filler: Filler): Value
    decreases filler
  {
    if filler.family != "" then FamilyValue(filler.family)
    else if filler.typ.Named? && filler.typ.named in env then env[filler.typ.named]
    else TypeValue(Denote(w, family, env, filler.typ))
  }

  function DenoteBindings(w: World, family: string, env: Env, with: Bindings): Env {
    map p | p in with :: DenoteFiller(w, family, env, with[p])
  }
}
