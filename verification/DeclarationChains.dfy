/**
 Captures from below and above: a type captures exactly the names that some chain of
 references from its own expressions leads to.
 */
module DeclarationChains {
  import opened DeclarationModel
  import opened DeclarationCaptures

  // ---- Chains, by how many references they follow.

  // A name an expression of the type may stand for itself: a parameter of the family or the type.
  predicate Scoped(w: World, key: Key, name: string) {
    && key.1 in Types(w, key.0)
    && ((exists p :: p in w[key.0].parameters && p.name == name)
        || exists p :: p in Types(w, key.0)[key.1].parameters && p.name == name)
  }

  // Names a parameter of the target: the family's where the target has none of the name itself.
  predicate Slot(w: World, owner: string, target: string, p: Parameter) {
    && target in Types(w, owner)
    && (p in Types(w, owner)[target].parameters
        || (p in w[owner].parameters && forall q :: q in Types(w, owner)[target].parameters ==> q.name != p.name))
  }

  // Filling a slot matters: a type other than an alias shows its own, and any other leads on.
  ghost predicate Matters(w: World, owner: string, target: string, p: Parameter, n: nat)
    requires Slot(w, owner, target, p)
    decreases n, 0, 0
  {
    || (p in Types(w, owner)[target].parameters && Types(w, owner)[target].kind != Alias)
    || (n > 0 && Leads(w, (owner, target), p.name, n - 1))
  }

  // A slot nothing is supplied for takes, in the family, the parameter of its name, and beyond it
  // the one family parameter there is.
  predicate Inherits(w: World, key: Key, owner: string, p: Parameter, shadow: set<string>, name: string) {
    && name !in shadow && Scoped(w, key, name)
    && if owner == key.0 then p.name == name else p.ofFamily && FamilyParameters(w, key.0) == [name]
  }

  // A reference leads to the name through a slot that matters; `writes` says of each argument
  // supplied whether it writes the name.
  ghost predicate RefersTo(w: World, key: Key, owner: string, target: string, writes: map<string, bool>,
                           shadow: set<string>, name: string, n: nat)
    decreases n, 0, 1
  {
    exists p: Parameter ::
      && Slot(w, owner, target, p) && Matters(w, owner, target, p, n)
      && if p.name in writes then writes[p.name] else Inherits(w, key, owner, p, shadow, name)
  }

  // The families a reference may be to.
  predicate Visible(w: World, key: Key, owner: string) { owner == key.0 || owner in Imports(w, key.0) }

  /** An expression writes the name, or refers to a type that leads to it. */
  ghost predicate Writes(w: World, key: Key, e: Expr, shadow: set<string>, name: string, n: nat)
    decreases n, 1, e, 1
  {
    match e
    case Named(x) =>
      x !in shadow && if Scoped(w, key, x) then x == name else RefersTo(w, key, key.0, x, map[], shadow, name, n)
    case Imported(from, x) => from in Imports(w, key.0) && RefersTo(w, key, from, x, map[], shadow, name, n)
    case Drawn(p, _) => p == name && p !in shadow && Scoped(w, key, p)
    case Array(items) => Writes(w, key, items, shadow, name, n)
    case Map(values) => Writes(w, key, values, shadow, name, n)
    case Nullable(inner) => Writes(w, key, inner, shadow, name, n)
    case Apply(from, x, with) =>
      var owner := if from == "" then key.0 else from;
      (from == "" || from in Imports(w, key.0))
        && RefersTo(w, key, owner, x, ArgumentsWrite(w, key, e, shadow, name, n), shadow, name, n)
    case Ref(entity, from) =>
      var owner := if from == "" then key.0 else from;
      Visible(w, key, owner) && RefersTo(w, key, owner, entity, map[], shadow, name, n)
    case Inline(_, own, fields, variants) =>
      var inner := shadow + set p | p in own;
      exists m: Member :: (m in fields || m in variants) && Writes(w, key, m.typ, inner, name, n)
    case _ => false
  }

  // Of each argument supplied, whether it writes the name.
  ghost function ArgumentsWrite(w: World, key: Key, e: Expr, shadow: set<string>, name: string, n: nat): map<string,
                                bool>
    requires e.Apply?
    decreases n, 1, e, 0
  {
    map p | p in e.with :: Writes(w, key, e.with[p].typ, shadow, name, n)
  }

  /** One of the type's expressions does. */
  ghost predicate Leads(w: World, key: Key, name: string, n: nat)
    decreases n, 2
  {
    key.1 in Types(w, key.0)
    && exists e :: e in Expressions(Types(w, key.0)[key.1]) && Writes(w, key, e, {}, name, n)
  }

  // ---- Longer chains lead wherever shorter ones do.

  lemma {:induction false} LeadsLonger(w: World, key: Key, name: string, n: nat)
    requires Leads(w, key, name, n)
    ensures Leads(w, key, name, n + 1)
    decreases n, 2
  {
    var e :| e in Expressions(Types(w, key.0)[key.1]) && Writes(w, key, e, {}, name, n);
    WritesLonger(w, key, e, {}, name, n);
  }

  lemma {:induction false} WritesLonger(w: World, key: Key, e: Expr, shadow: set<string>, name: string, n: nat)
    requires Writes(w, key, e, shadow, name, n)
    ensures Writes(w, key, e, shadow, name, n + 1)
    decreases n, 1, e
  {
    match e
    case Named(x) => if !Scoped(w, key, x) { RefersLonger(w, key, key.0, x, map[], map[], shadow, name, n); }
    case Imported(from, x) => RefersLonger(w, key, from, x, map[], map[], shadow, name, n);
    case Array(items) => WritesLonger(w, key, items, shadow, name, n);
    case Map(values) => WritesLonger(w, key, values, shadow, name, n);
    case Nullable(inner) => WritesLonger(w, key, inner, shadow, name, n);
    case Apply(from, x, with) =>
      forall p | p in with && Writes(w, key, with[p].typ, shadow, name, n)
        ensures Writes(w, key, with[p].typ, shadow, name, n + 1)
      {
        WritesLonger(w, key, with[p].typ, shadow, name, n);
      }
      RefersLonger(w, key, if from == "" then key.0 else from, x, ArgumentsWrite(w, key, e, shadow, name, n),
                   ArgumentsWrite(w, key, e, shadow, name, n + 1), shadow, name, n);
    case Ref(entity, from) =>
      RefersLonger(w, key, if from == "" then key.0 else from, entity, map[], map[], shadow, name, n);
    case Inline(_, own, fields, variants) =>
      var inner := shadow + set p | p in own;
      var m: Member :| (m in fields || m in variants) && Writes(w, key, m.typ, inner, name, n);
      WritesLonger(w, key, m.typ, inner, name, n);
    case _ =>
  }

  lemma {:induction false} RefersLonger(w: World, key: Key, owner: string, target: string, writes: map<string, bool>,
                                        more: map<string, bool>, shadow: set<string>, name: string, n: nat)
    requires RefersTo(w, key, owner, target, writes, shadow, name, n)
    requires writes.Keys == more.Keys && forall p :: p in writes && writes[p] ==> more[p]
    ensures RefersTo(w, key, owner, target, more, shadow, name, n + 1)
    decreases n, 0
  {
    var p: Parameter :|
      && Slot(w, owner, target, p) && Matters(w, owner, target, p, n)
      && if p.name in writes then writes[p.name] else Inherits(w, key, owner, p, shadow, name);
    if n > 0 && Leads(w, (owner, target), p.name, n - 1) { LeadsLonger(w, (owner, target), p.name, n - 1); }
    assert Matters(w, owner, target, p, n + 1);
  }

  lemma {:induction false} LeadsAsLong(w: World, key: Key, name: string, n: nat, m: nat)
    requires Leads(w, key, name, n) && n <= m
    ensures Leads(w, key, name, m)
    decreases m - n
  {
    if n < m {
      LeadsLonger(w, key, name, n);
      LeadsAsLong(w, key, name, n + 1, m);
    }
  }

  lemma {:induction false} WritesAsLong(w: World, key: Key, e: Expr, shadow: set<string>, name: string, n: nat, m: nat)
    requires Writes(w, key, e, shadow, name, n) && n <= m
    ensures Writes(w, key, e, shadow, name, m)
    decreases m - n
  {
    if n < m {
      WritesLonger(w, key, e, shadow, name, n);
      WritesAsLong(w, key, e, shadow, name, n + 1, m);
    }
  }

  // ---- What a chain leads to is captured.

  lemma ScopedIsInScope(w: World, key: Key, name: string)
    ensures Scoped(w, key, name) <==> name in InScope(w, key)
  {
  }

  lemma SlotIsSlot(w: World, c: Captures, owner: string, target: string, p: Parameter)
    requires target in Types(w, owner)
    ensures p in Slots(w, c, owner, target) <==>
            Slot(w, owner, target, p)
            && ((p in Types(w, owner)[target].parameters && Types(w, owner)[target].kind != Alias)
                || p.name in At(c, (owner, target)))
  {
    var d := Types(w, owner)[target];
    assert p.name in ParameterNames(d.parameters) <==> exists q :: q in d.parameters && q.name == p.name;
  }

  lemma InheritsIsFilling(w: World, key: Key, owner: string, p: Parameter, fills: map<string, set<string>>,
                          shadow: set<string>, name: string)
    requires p.name !in fills
    ensures Inherits(w, key, owner, p, shadow, name) <==> name in Filling(w, key, owner, p, fills, shadow)
  {
    ScopedIsInScope(w, key, name);
    var one := FamilyParameters(w, key.0);
    if |one| == 1 { assert one == [one[0]]; }
  }

  ghost predicate Table(w: World, c: Captures) { Solves(w, c) && Complete(w, c) }

  lemma {:induction false} LeadsIsCaptured(w: World, c: Captures, key: Key, name: string, n: nat)
    requires Table(w, c) && key in c && Leads(w, key, name, n)
    ensures name in c[key]
    decreases n, 2
  {
    var expressions := Expressions(Types(w, key.0)[key.1]);
    var e :| e in expressions && Writes(w, key, e, {}, name, n);
    WritesIsCaptured(w, c, key, e, {}, name, n);
    var i :| 0 <= i < |expressions| && expressions[i] == e;
    assert name in ExprCaptures(w, key, c, expressions[i], {});
    assert name in TypeCaptures(w, c, key);
  }

  lemma {:induction false} WritesIsCaptured(w: World, c: Captures, key: Key, e: Expr, shadow: set<string>, name: string,
                                            n: nat)
    requires Table(w, c) && key in c && Writes(w, key, e, shadow, name, n)
    ensures name in ExprCaptures(w, key, c, e, shadow)
    decreases n, 1, e
  {
    match e
    case Named(x) =>
      ScopedIsInScope(w, key, x);
      if !Scoped(w, key, x) { RefersIsCaptured(w, c, key, key.0, x, map[], map[], shadow, name, n); }
    case Imported(from, x) => RefersIsCaptured(w, c, key, from, x, map[], map[], shadow, name, n);
    case Drawn(p, _) => ScopedIsInScope(w, key, p);
    case Array(items) => WritesIsCaptured(w, c, key, items, shadow, name, n);
    case Map(values) => WritesIsCaptured(w, c, key, values, shadow, name, n);
    case Nullable(inner) => WritesIsCaptured(w, c, key, inner, shadow, name, n);
    case Apply(from, x, with) =>
      forall p | p in with && Writes(w, key, with[p].typ, shadow, name, n)
        ensures name in ExprCaptures(w, key, c, with[p].typ, shadow)
      {
        WritesIsCaptured(w, c, key, with[p].typ, shadow, name, n);
      }
      RefersIsCaptured(w, c, key, if from == "" then key.0 else from, x, ArgumentsWrite(w, key, e, shadow, name, n),
                       Supplies(w, key, c, e, shadow), shadow, name, n);
    case Ref(entity, from) =>
      RefersIsCaptured(w, c, key, if from == "" then key.0 else from, entity, map[], map[], shadow, name, n);
    case Inline(_, own, fields, variants) =>
      var inner := shadow + set p | p in own;
      var m: Member :| (m in fields || m in variants) && Writes(w, key, m.typ, inner, name, n);
      WritesIsCaptured(w, c, key, m.typ, inner, name, n);
      MemberCaptures(w, key, c, e, m, shadow, name);
    case _ =>
  }

  lemma MemberCaptures(w: World, key: Key, c: Captures, e: Expr, m: Member, shadow: set<string>, name: string)
    requires e.Inline? && (m in e.fields || m in e.variants)
    requires name in ExprCaptures(w, key, c, m.typ, shadow + set p | p in e.own)
    ensures name in ExprCaptures(w, key, c, e, shadow)
  {
    var inner := shadow + set p | p in e.own;
    if m in e.fields {
      var i :| 0 <= i < |e.fields| && e.fields[i] == m;
      assert name in ExprCaptures(w, key, c, e.fields[i].typ, inner);
    } else {
      var i :| 0 <= i < |e.variants| && e.variants[i] == m;
      assert name in ExprCaptures(w, key, c, e.variants[i].typ, inner);
    }
  }

  lemma {:induction false} RefersIsCaptured(w: World, c: Captures, key: Key, owner: string, target: string,
                                            writes: map<string, bool>, fills: map<string, set<string>>,
                                            shadow: set<string>, name: string, n: nat)
    requires Table(w, c) && key in c && Visible(w, key, owner)
    requires RefersTo(w, key, owner, target, writes, shadow, name, n)
    requires writes.Keys == fills.Keys && forall p :: p in writes && writes[p] ==> name in fills[p]
    ensures name in Application(w, key, c, owner, target, fills, shadow)
    decreases n, 0
  {
    var p: Parameter :|
      && Slot(w, owner, target, p) && Matters(w, owner, target, p, n)
      && if p.name in writes then writes[p.name] else Inherits(w, key, owner, p, shadow, name);
    assert (owner, target) in c;
    if n > 0 && Leads(w, (owner, target), p.name, n - 1) { LeadsIsCaptured(w, c, (owner, target), p.name, n - 1); }
    SlotIsSlot(w, c, owner, target, p);
    if p.name !in fills { InheritsIsFilling(w, key, owner, p, fills, shadow, name); }
    assert name in Filling(w, key, owner, p, fills, shadow);
  }

  // ---- What is captured, some chain leads to: the names led to solve the equations.

  // Some finite chain of references leads to the name.
  ghost predicate LedTo(w: World, key: Key, name: string) { exists n: nat :: Leads(w, key, name, n) }

  ghost function AllLedTo(w: World, c: Captures): Captures {
    map k | k in c :: set name | name in InScope(w, k) && LedTo(w, k, name)
  }

  lemma {:induction false} CapturedIsLedTo(w: World, c: Captures, key: Key, name: string)
    requires key in c && name in TypeCaptures(w, AllLedTo(w, c), key)
    ensures LedTo(w, key, name)
  {
    var d, expressions := AllLedTo(w, c), Expressions(Types(w, key.0)[key.1]);
    var i :| 0 <= i < |expressions| && name in ExprCaptures(w, key, d, expressions[i], {});
    var n := CapturedIsWritten(w, c, key, expressions[i], {}, name);
    assert expressions[i] in expressions;
    assert Leads(w, key, name, n);
  }

  lemma {:induction false} CapturedIsWritten(w: World, c: Captures, key: Key, e: Expr, shadow: set<string>,
                                             name: string)
    returns (n: nat)
    requires name in ExprCaptures(w, key, AllLedTo(w, c), e, shadow)
    ensures Writes(w, key, e, shadow, name, n)
    decreases e
  {
    var d := AllLedTo(w, c);
    n := 0;
    match e
    case Named(x) =>
      ScopedIsInScope(w, key, x);
      if !Scoped(w, key, x) { n := CapturedIsReferred(w, c, key, key.0, x, map[], map[], shadow, name, 0); }
    case Imported(from, x) => n := CapturedIsReferred(w, c, key, from, x, map[], map[], shadow, name, 0);
    case Drawn(p, _) => ScopedIsInScope(w, key, p);
    case Array(items) => n := CapturedIsWritten(w, c, key, items, shadow, name);
    case Map(values) => n := CapturedIsWritten(w, c, key, values, shadow, name);
    case Nullable(inner) => n := CapturedIsWritten(w, c, key, inner, shadow, name);
    case Apply(from, x, with) =>
      var owner, fills := if from == "" then key.0 else from, Supplies(w, key, d, e, shadow);
      var p := CapturedThrough(w, key, d, owner, x, fills, shadow, name);
      var m := 0;
      if p.name in with { m := CapturedIsWritten(w, c, key, with[p.name].typ, shadow, name); }
      n := ThroughIsReferred(w, c, key, owner, x, e, fills, shadow, name, p, m);
    case Ref(entity, from) =>
      n := CapturedIsReferred(w, c, key, if from == "" then key.0 else from, entity, map[], map[], shadow, name, 0);
    case Inline(_, own, fields, variants) =>
      var inner := shadow + set p | p in own;
      if i :| 0 <= i < |fields| && name in ExprCaptures(w, key, d, fields[i].typ, inner) {
        n := CapturedIsWritten(w, c, key, fields[i].typ, inner, name);
        assert fields[i] in fields;
      } else {
        var j :| 0 <= j < |variants| && name in ExprCaptures(w, key, d, variants[j].typ, inner);
        n := CapturedIsWritten(w, c, key, variants[j].typ, inner, name);
        assert variants[j] in variants;
      }
    case _ =>
  }

  // The slot by which an application captures a name.
  lemma CapturedThrough(w: World, key: Key, d: Captures, owner: string, target: string, fills: map<string, set<string>>,
                        shadow: set<string>, name: string) returns (p: Parameter)
    requires name in Application(w, key, d, owner, target, fills, shadow)
    ensures target in Types(w, owner) && p in Slots(w, d, owner, target)
    ensures name in Filling(w, key, owner, p, fills, shadow)
  {
    p :| p in Slots(w, d, owner, target) && name in Filling(w, key, owner, p, fills, shadow);
  }

  // A slot that captures matters, after as many references as it takes.
  lemma {:induction false} SlotMatters(w: World, c: Captures, owner: string, target: string, p: Parameter, least: nat)
    returns (n: nat)
    requires target in Types(w, owner) && p in Slots(w, AllLedTo(w, c), owner, target)
    ensures n >= least && Slot(w, owner, target, p) && Matters(w, owner, target, p, n)
  {
    var d := AllLedTo(w, c);
    SlotIsSlot(w, d, owner, target, p);
    n := least;
    if p.name in At(d, (owner, target)) {
      var m: nat :| Leads(w, (owner, target), p.name, m);
      n := if m + 1 >= least then m + 1 else least;
      LeadsAsLong(w, (owner, target), p.name, m, n - 1);
    }
  }

  lemma {:induction false} CapturedIsReferred(w: World, c: Captures, key: Key, owner: string, target: string,
                                              writes: map<string, bool>, fills: map<string, set<string>>,
                                              shadow: set<string>, name: string, least: nat)
    returns (n: nat)
    requires name in Application(w, key, AllLedTo(w, c), owner, target, fills, shadow) && fills == map[]
             && writes == map[]
    ensures RefersTo(w, key, owner, target, writes, shadow, name, n)
  {
    var p := CapturedThrough(w, key, AllLedTo(w, c), owner, target, fills, shadow, name);
    n := SlotMatters(w, c, owner, target, p, least);
    InheritsIsFilling(w, key, owner, p, fills, shadow, name);
  }

  lemma {:induction false} ThroughIsReferred(w: World, c: Captures, key: Key, owner: string, target: string, e: Expr,
                                             fills: map<string, set<string>>, shadow: set<string>, name: string,
                                             p: Parameter, m: nat)
    returns (n: nat)
    requires e.Apply? && fills == Supplies(w, key, AllLedTo(w, c), e, shadow)
    requires target in Types(w, owner) && p in Slots(w, AllLedTo(w, c), owner, target)
    requires name in Filling(w, key, owner, p, fills, shadow)
    requires p.name in e.with ==> Writes(w, key, e.with[p.name].typ, shadow, name, m)
    ensures RefersTo(w, key, owner, target, ArgumentsWrite(w, key, e, shadow, name, n), shadow, name, n)
  {
    n := SlotMatters(w, c, owner, target, p, m);
    if p.name in e.with {
      WritesAsLong(w, key, e.with[p.name].typ, shadow, name, m, n);
    } else {
      InheritsIsFilling(w, key, owner, p, fills, shadow, name);
    }
  }

  lemma {:induction false} LedToSolves(w: World, c: Captures)
    ensures AllLedTo(w, c).Keys == c.Keys && Solves(w, AllLedTo(w, c))
  {
    var d := AllLedTo(w, c);
    forall k | k in d ensures TypeCaptures(w, d, k) <= d[k] {
      TypeCapturesGrow(w, d, d, k);
      forall x | x in TypeCaptures(w, d, k) ensures x in d[k] { CapturedIsLedTo(w, c, k, x); }
    }
  }

  /** In the least table a type captures a name if and only if some finite chain of references
      leads to it: from an expression of the type's own, through slots that matter, each filled by
      what leads on or taken from the scope, to one that writes the name unshadowed. */
  lemma {:induction false} CapturesAreLedTo(w: World, c: Captures, key: Key, name: string)
    requires Solves(w, c) && Least(w, c) && Complete(w, c) && key in c
    ensures name in c[key] <==> LedTo(w, key, name)
  {
    var d := AllLedTo(w, c);
    LedToSolves(w, c);
    assert Below(c, d);
    if name in c[key] {
      assert c[key] <= At(d, key);
      assert LedTo(w, key, name);
    }
    if LedTo(w, key, name) {
      var n: nat :| Leads(w, key, name, n);
      LeadsIsCaptured(w, c, key, name, n);
    }
  }
}
