/**
 Types unfolded through the declarations they name, given what fills their parameters.
 */
module DeclarationUnfolding {
  import opened DeclarationModel
  import opened DeclarationCaptures

  // A type unfolded through the declarations it names, applications included.
  datatype Tree =
    | Cut
    | Unknown
    | Unfilled(name: string)
    | Shadowed(name: string)
    | OfFamily(name: string)
    | Leaf(expr: Expr)
    | Items(inner: Tree)
    | Values(inner: Tree)
    | Optional(inner: Tree)
    | Draw(from: Tree, name: string)
    | Composite(fields: seq<Tree>, variants: seq<Tree>)
    | Opened(owner: string, name: string, parts: seq<Tree>)

  type Filled = map<string, Tree>

  function Standing(w: World, key: Key, env: Filled, shadow: set<string>, name: string): Tree {
    if name in shadow then Shadowed(name)
    else if name !in InScope(w, key) then Unknown
    else if name in env then env[name] else Unfilled(name)
  }

  // A name among a target's parameters, its own before its family's, takes a family.
  predicate FamilySlot(w: World, owner: string, target: string, name: string)
    requires target in Types(w, owner)
  {
    var own := Types(w, owner)[target].parameters;
    if name in ParameterNames(own) then exists p :: p in own && p.name == name && p.ofFamily
    else exists p :: p in w[owner].parameters && p.name == name && p.ofFamily
  }

  // What a target's parameter stands for where the target is applied.
  function Argument(w: World, key: Key, env: Filled, owner: string, target: string, fills: Filled, shadow: set<string>,
                    name: string): Tree
    requires target in Types(w, owner)
  {
    if name in fills then fills[name]
    else if owner == key.0 then Standing(w, key, env, shadow, name)
    else if FamilySlot(w, owner, target, name) && |FamilyParameters(w, key.0)| == 1
    then Standing(w, key, env, shadow, FamilyParameters(w, key.0)[0])
    else Unfilled(name)
  }

  function Arguments(w: World, key: Key, env: Filled, owner: string, target: string, fills: Filled,
                     shadow: set<string>): Filled
    requires target in Types(w, owner)
  {
    map n | n in InScope(w, (owner, target)) :: Argument(w, key, env, owner, target, fills, shadow, n)
  }

  /** An expression of a type, its parameters filled, unfolded to a depth. */
  function Unfold(w: World, key: Key, env: Filled, e: Expr, shadow: set<string>, depth: nat): Tree
    decreases depth, 1, e, 1
  {
    var f := key.0;
    match e
    case Named(x) =>
      if x in shadow || x in InScope(w, key) then Standing(w, key, env, shadow, x)
      else Target(w, key, env, f, x, map[], shadow, depth)
    case Imported(from, x) =>
      if from in Imports(w, f) then Target(w, key, env, from, x, map[], shadow, depth) else Unknown
    case Drawn(p, x) => Draw(Standing(w, key, env, shadow, p), x)
    case Array(items) => Items(Unfold(w, key, env, items, shadow, depth))
    case Map(values) => Values(Unfold(w, key, env, values, shadow, depth))
    case Nullable(inner) => Optional(Unfold(w, key, env, inner, shadow, depth))
    case Apply(from, x, _) =>
      var fills := Fills(w, key, env, e, shadow, depth);
      if from == "" then Target(w, key, env, f, x, fills, shadow, depth)
      else if from in Imports(w, f) then Target(w, key, env, from, x, fills, shadow, depth)
      else Unknown
    case Ref(entity, from) =>
      if from == "" || from == f then Target(w, key, env, f, entity, map[], shadow, depth)
      else if from in Imports(w, f) then Target(w, key, env, from, entity, map[], shadow, depth)
      else Unknown
    case Inline(_, own, fields, variants) =>
      var inner := shadow + set p | p in own;
      Composite(seq(|fields|, i requires 0 <= i < |fields| => Unfold(w, key, env, fields[i].typ, inner, depth)),
                seq(|variants|, i requires 0 <= i < |variants| => Unfold(w, key, env, variants[i].typ, inner, depth)))
    case _ => Leaf(e)
  }

  // What an application supplies.
  function Fills(w: World, key: Key, env: Filled, e: Expr, shadow: set<string>, depth: nat): Filled
    requires e.Apply?
    decreases depth, 1, e, 0
  {
    map p | p in e.with :: if e.with[p].typ == Absent then OfFamily(e.with[p].family)
      else Unfold(w, key, env, e.with[p].typ, shadow, depth)
  }

  function Target(w: World, key: Key, env: Filled, owner: string, target: string, fills: Filled, shadow: set<string>,
                  depth: nat): Tree
    decreases depth, 0
  {
    if target !in Types(w, owner) then Unknown
    else if depth == 0 then Cut
    else
      var expressions := Expressions(Types(w, owner)[target]);
      var inner := Arguments(w, key, env, owner, target, fills, shadow);
      Opened(owner, target, seq(|expressions|, i requires 0 <= i < |expressions| =>
        Unfold(w, (owner, target), inner, expressions[i], {}, depth - 1)))
  }

  // ---- Only captured parameters matter.

  predicate Agree(a: Filled, b: Filled, names: set<string>) {
    forall n <- names :: (n in a <==> n in b) && (n in a ==> a[n] == b[n])
  }

  lemma StandingAgrees(w: World, key: Key, a: Filled, b: Filled, shadow: set<string>, name: string, names: set<string>)
    requires Agree(a, b, names) && Add(InScope(w, key), shadow, name) <= names
    ensures Standing(w, key, a, shadow, name) == Standing(w, key, b, shadow, name)
  {
    if name !in shadow && name in InScope(w, key) { assert name in Add(InScope(w, key), shadow, name); }
  }

  // The parameter of that name a captured name stands for.
  lemma SlotOf(w: World, c: Captures, owner: string, target: string, name: string) returns (p: Parameter)
    requires target in Types(w, owner) && name in At(c, (owner, target)) && name in InScope(w, (owner, target))
    ensures p in Slots(w, c, owner, target) && p.name == name && (FamilySlot(w, owner, target, name) ==> p.ofFamily)
  {
    var own, family := Types(w, owner)[target].parameters, w[owner].parameters;
    if name in ParameterNames(own) {
      p :| p in own && p.name == name;
      if FamilySlot(w, owner, target, name) { p :| p in own && p.name == name && p.ofFamily; }
    } else {
      p :| p in family && p.name == name;
      if FamilySlot(w, owner, target, name) { p :| p in family && p.name == name && p.ofFamily; }
    }
  }

  // The arguments of a target agree on what the target captures.
  lemma ArgumentsAgree(w: World, c: Captures, key: Key, a: Filled, b: Filled, owner: string, target: string,
                       fills: map<string, set<string>>, f: Filled, g: Filled, shadow: set<string>, names: set<string>)
    requires Agree(a, b, names) && target in Types(w, owner)
             && Application(w, key, c, owner, target, fills, shadow) <= names
    requires f.Keys == g.Keys == fills.Keys
    requires forall p :: p in Slots(w, c, owner, target) && p.name in fills ==> f[p.name] == g[p.name]
    ensures Agree(Arguments(w, key, a, owner, target, f, shadow), Arguments(w, key, b, owner, target, g, shadow),
            At(c, (owner, target)))
  {
    forall n | n in At(c, (owner, target)) && n in InScope(w, (owner, target))
      ensures Argument(w, key, a, owner, target, f, shadow, n) == Argument(w, key, b, owner, target, g, shadow, n)
    {
      var p := SlotOf(w, c, owner, target, n);
      assert Filling(w, key, owner, p, fills, shadow) <= names by {
        assert forall x :: x in Filling(w, key, owner, p, fills, shadow) ==>
               x in Application(w, key, c, owner, target, fills, shadow);
      }
      if n in fills {
      } else if owner == key.0 {
        StandingAgrees(w, key, a, b, shadow, n, names);
      } else if FamilySlot(w, owner, target, n) && |FamilyParameters(w, key.0)| == 1 {
        StandingAgrees(w, key, a, b, shadow, FamilyParameters(w, key.0)[0], names);
      }
    }
  }

  ghost predicate SameUnfolding(w: World, key: Key, a: Filled, b: Filled, e: Expr, shadow: set<string>, depth: nat) {
    Unfold(w, key, a, e, shadow, depth) == Unfold(w, key, b, e, shadow, depth)
  }

  ghost predicate Ready(w: World, c: Captures, key: Key, a: Filled, b: Filled, captured: set<string>) {
    Solves(w, c) && Complete(w, c) && key in c && Agree(a, b, captured)
  }
}
