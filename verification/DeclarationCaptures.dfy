/**
 Which parameters each type captures, by the equations a renderer solves: what one
 type's expressions capture, given what every type is so far known to capture.
 */
module DeclarationCaptures {
  import opened DeclarationModel

  type Key = (string, string)

  type Captures = map<Key, set<string>>

  function At(c: Captures, key: Key): set<string> { if key in c then c[key] else {} }

  function ParameterNames(parameters: seq<Parameter>): set<string> { set p | p in parameters :: p.name }

  // The parameters a type's expressions may name: its family's and its own.
  function InScope(w: World, key: Key): set<string> {
    if key.1 in Types(w, key.0)
      then ParameterNames(w[key.0].parameters) + ParameterNames(Types(w, key.0)[key.1].parameters) else {}
  }

  // The parameters of a target an application may fill: captured ones of its family, and
  // its own, an alias's only where captured.
  function Slots(w: World, c: Captures, owner: string, target: string): set<Parameter>
    requires target in Types(w, owner)
  {
    var d, used := Types(w, owner)[target], At(c, (owner, target));
    (set p | p in w[owner].parameters && p.name !in ParameterNames(d.parameters) && p.name in used)
    + (set p | p in d.parameters && (d.kind != Alias || p.name in used))
  }

  function Add(scope: set<string>, shadow: set<string>, name: string): set<string> {
    if name !in shadow && name in scope then {name} else {}
  }

  // What an application captures; `fills` says what each supplied argument captures.
  function Application(w: World, key: Key, c: Captures, owner: string, target: string, fills: map<string, set<string>>,
                       shadow: set<string>): set<string> {
    if target !in Types(w, owner) then {}
    else set p, n | p in Slots(w, c, owner, target) && n in Filling(w, key, owner, p, fills, shadow) :: n
  }

  function Filling(w: World, key: Key, owner: string, p: Parameter, fills: map<string, set<string>>,
                   shadow: set<string>): set<string> {
    if p.name in fills then fills[p.name]
    else if owner == key.0 then Add(InScope(w, key), shadow, p.name)
    else if p.ofFamily && |FamilyParameters(w, key.0)| == 1
      then Add(InScope(w, key), shadow, FamilyParameters(w, key.0)[0])
    else {}
  }

  /** What one expression of a type captures. */
  function ExprCaptures(w: World, key: Key, c: Captures, e: Expr, shadow: set<string>): set<string>
    decreases e, 1
  {
    var f := key.0;
    match e
    case Named(x) =>
      if x in shadow then {}
      else if x in InScope(w, key) then Add(InScope(w, key), shadow, x)
      else Application(w, key, c, f, x, map[], shadow)
    case Imported(from, x) =>
      if from in Imports(w, f) then Application(w, key, c, from, x, map[], shadow) else {}
    case Drawn(p, _) => Add(InScope(w, key), shadow, p)
    case Array(items) => ExprCaptures(w, key, c, items, shadow)
    case Map(values) => ExprCaptures(w, key, c, values, shadow)
    case Nullable(inner) => ExprCaptures(w, key, c, inner, shadow)
    case Apply(from, x, _) =>
      var fills := Supplies(w, key, c, e, shadow);
      if from == "" then Application(w, key, c, f, x, fills, shadow)
      else if from in Imports(w, f) then Application(w, key, c, from, x, fills, shadow)
      else {}
    case Ref(entity, from) =>
      if from == "" || from == f then Application(w, key, c, f, entity, map[], shadow)
      else if from in Imports(w, f) then Application(w, key, c, from, entity, map[], shadow)
      else {}
    case Inline(_, own, fields, variants) =>
      var inner := shadow + set p | p in own;
      (set i, n | 0 <= i < |fields| && n in ExprCaptures(w, key, c, fields[i].typ, inner) :: n)
      + (set i, n | 0 <= i < |variants| && n in ExprCaptures(w, key, c, variants[i].typ, inner) :: n)
    case _ => {}
  }

  // What each argument an application supplies captures.
  function Supplies(w: World, key: Key, c: Captures, e: Expr, shadow: set<string>): map<string, set<string>>
    requires e.Apply?
    decreases e, 0
  {
    map p | p in e.with :: ExprCaptures(w, key, c, e.with[p].typ, shadow)
  }

  function TypeCaptures(w: World, c: Captures, key: Key): set<string> {
    if key.1 !in Types(w, key.0) then {}
    else
      var expressions := Expressions(Types(w, key.0)[key.1]);
      set i, n | 0 <= i < |expressions| && n in ExprCaptures(w, key, c, expressions[i], {}) :: n
  }

  // ---- Monotone, and bounded by what is in scope.

  predicate Below(a: Captures, b: Captures) { forall k :: k in a ==> a[k] <= At(b, k) }

  lemma ApplicationGrows(w: World, key: Key, a: Captures, b: Captures, owner: string, target: string,
                         fills: map<string, set<string>>, more: map<string, set<string>>, shadow: set<string>)
    requires Below(a, b) && fills.Keys == more.Keys && forall p :: p in fills ==> fills[p] <= more[p] <= InScope(w, key)
    ensures Application(w, key, a, owner, target, fills, shadow) <=
            Application(w, key, b, owner, target, more, shadow) <= InScope(w, key)
  {
    if target in Types(w, owner) {
      assert At(a, (owner, target)) <= At(b, (owner, target));
      assert Slots(w, a, owner, target) <= Slots(w, b, owner, target);
      forall p: Parameter
        ensures Filling(w, key, owner, p, fills, shadow) <= Filling(w, key, owner, p, more, shadow) <= InScope(w, key)
      {
      }
    }
  }

  ghost predicate Grows(w: World, key: Key, a: Captures, b: Captures, e: Expr, shadow: set<string>) {
    ExprCaptures(w, key, a, e, shadow) <= ExprCaptures(w, key, b, e, shadow) <= InScope(w, key)
  }

  lemma {:induction false} CapturesGrow(w: World, key: Key, a: Captures, b: Captures, e: Expr, shadow: set<string>)
    requires Below(a, b)
    ensures Grows(w, key, a, b, e, shadow)
    decreases e
  {
    match e
    case Named(x) => ApplicationGrows(w, key, a, b, key.0, x, map[], map[], shadow);
    case Imported(from, x) => ApplicationGrows(w, key, a, b, from, x, map[], map[], shadow);
    case Array(items) => CapturesGrow(w, key, a, b, items, shadow);
    case Map(values) => CapturesGrow(w, key, a, b, values, shadow);
    case Nullable(inner) => CapturesGrow(w, key, a, b, inner, shadow);
    case Apply(_, _, with) =>
      forall p | p in with ensures Grows(w, key, a, b, with[p].typ, shadow) {
        CapturesGrow(w, key, a, b, with[p].typ, shadow);
      }
      ApplyGrows(w, key, a, b, e, shadow);
    case Ref(entity, from) =>
      ApplicationGrows(w, key, a, b, if from == "" || from == key.0 then key.0 else from, entity, map[], map[], shadow);
    case Inline(_, own, fields, variants) =>
      var inner := shadow + set p | p in own;
      forall m | m in fields + variants ensures Grows(w, key, a, b, m.typ, inner) {
        CapturesGrow(w, key, a, b, m.typ, inner);
      }
      InlineGrows(w, key, a, b, e, shadow);
    case _ =>
  }

  lemma {:induction false} ApplyGrows(w: World, key: Key, a: Captures, b: Captures, e: Expr, shadow: set<string>)
    requires Below(a, b) && e.Apply? && forall p | p in e.with :: Grows(w, key, a, b, e.with[p].typ, shadow)
    ensures Grows(w, key, a, b, e, shadow)
  {
    ApplicationGrows(w, key, a, b, if e.applyFamily == "" then key.0 else e.applyFamily, e.applied,
                     Supplies(w, key, a, e, shadow), Supplies(w, key, b, e, shadow), shadow);
  }

  lemma InlineGrows(w: World, key: Key, a: Captures, b: Captures, e: Expr, shadow: set<string>)
    requires e.Inline?
             && forall m | m in e.fields + e.variants :: Grows(w, key, a, b, m.typ, shadow + set p | p in e.own)
    ensures Grows(w, key, a, b, e, shadow)
  {
    var inner := shadow + set p | p in e.own;
    forall i | 0 <= i < |e.fields| ensures Grows(w, key, a, b, e.fields[i].typ, inner) {
      assert e.fields[i] in e.fields + e.variants;
    }
    forall i | 0 <= i < |e.variants| ensures Grows(w, key, a, b, e.variants[i].typ, inner) {
      assert e.variants[i] in e.fields + e.variants;
    }
  }

  /** More known captures never take one away, and only names in scope are captured. */
  lemma TypeCapturesGrow(w: World, a: Captures, b: Captures, key: Key)
    requires Below(a, b)
    ensures TypeCaptures(w, a, key) <= TypeCaptures(w, b, key) <= InScope(w, key)
  {
    if key.1 in Types(w, key.0) {
      var expressions := Expressions(Types(w, key.0)[key.1]);
      forall i | 0 <= i < |expressions|
        ensures ExprCaptures(w, key, a, expressions[i], {}) <= ExprCaptures(w, key, b, expressions[i], {}) <=
                InScope(w, key)
      {
        CapturesGrow(w, key, a, b, expressions[i], {});
      }
    }
  }

  // ---- Solutions.

  // A table that captures for every type it lists all that the type's expressions do.
  ghost predicate Solves(w: World, c: Captures) {
    forall k :: k in c ==> TypeCaptures(w, c, k) <= c[k]
  }

  // A table that captures no more than its own entries account for.
  ghost predicate Supported(w: World, c: Captures) {
    forall k :: k in c ==> c[k] <= TypeCaptures(w, c, k)
  }

  ghost predicate Least(w: World, c: Captures) {
    forall d: Captures :: d.Keys == c.Keys && Solves(w, d) ==> Below(c, d)
  }

  // A table lists the types of every family that a listed type can name.
  ghost predicate Complete(w: World, c: Captures) {
    forall k, g, t :: k in c && (g == k.0 || g in Imports(w, k.0)) && t in Types(w, g) ==> (g, t) in c
  }

  /** There is at most one least solution over given types, so the order of the
      iteration cannot be told from it. */
  lemma LeastIsUnique(w: World, a: Captures, b: Captures)
    requires a.Keys == b.Keys && Solves(w, a) && Least(w, a) && Solves(w, b) && Least(w, b)
    ensures a == b
  {
    assert Below(a, b) && Below(b, a);
    forall k | k in a ensures a[k] == b[k] {
      assert a[k] <= At(b, k) && b[k] <= At(a, k);
    }
  }

  // Capturing for one type what its expressions capture keeps a table below every solution.
  lemma {:induction false} GrowingStaysLeast(w: World, c: Captures, key: Key)
    requires key in c && Least(w, c) && Supported(w, c)
    ensures var c' := c[key := c[key] + TypeCaptures(w, c, key)]; Least(w, c') && Supported(w, c') && Below(c, c')
  {
    var c' := c[key := c[key] + TypeCaptures(w, c, key)];
    forall d: Captures | d.Keys == c'.Keys && Solves(w, d) ensures Below(c', d) {
      assert d.Keys == c.Keys;
      TypeCapturesGrow(w, c, d, key);
    }
    forall k | k in c' ensures c'[k] <= TypeCaptures(w, c', k) {
      TypeCapturesGrow(w, c, c', k);
    }
  }

  // What a table still may come to hold.
  ghost function Room(w: World, c: Captures): set<(Key, string)> {
    set k, n | k in c && n in InScope(w, k) && n !in c[k] :: (k, n)
  }

  lemma RoomShrinks(w: World, c: Captures, key: Key)
    requires key in c && !(TypeCaptures(w, c, key) <= c[key])
    ensures Room(w, c[key := c[key] + TypeCaptures(w, c, key)]) < Room(w, c)
  {
    var c' := c[key := c[key] + TypeCaptures(w, c, key)];
    TypeCapturesGrow(w, c, c, key);
    var n :| n in TypeCaptures(w, c, key) && n !in c[key];
    assert (key, n) in Room(w, c) && (key, n) !in Room(w, c');
  }
}
