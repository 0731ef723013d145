/**
 Selecting from a declaration graph what one root needs.
 */
module DeclarationSelection {
  // References are lexical: an object holding "graph" carries its own definitions and is never
  // entered. Definitions may refer to each other in cycles.

  datatype Json =
    | Object(fields: map<string, Json>)
    | Array(items: seq<Json>)
    | Text(text: string)
    | Scalar(value: int)

  type Definitions = map<string, Json>

  datatype Outcome = Selected | Unknown(path: string)

  // ---- What an expression refers to.

  // A reference by name, or the application of one to arguments.
  predicate IsReference(key: string) { key == "ref" || key == "apply" }

  predicate Scoped(v: Json) { v.Object? && "graph" in v.fields }

  // The names an object itself refers to.
  function Named(fields: map<string, Json>): set<string> {
    set k | k in fields && IsReference(k) && fields[k].Text? :: fields[k].text
  }

  // The names occurring in a value outside the argument graphs nested in it.
  ghost function Names(v: Json): set<string>
    decreases v
  {
    match v
    case Object(fields) =>
      if Scoped(v) then {}
      else Named(fields) + set k, n | k in fields && !IsReference(k) && n in Names(fields[k]) :: n
    case Array(items) => set i, n | 0 <= i < |items| && n in Names(items[i]) :: n
    case _ => {}
  }

  // A way from the root to the last of `names`, each found in the definition before it.
  ghost predicate Leads(defs: Definitions, root: Json, names: seq<string>) {
    && names != []
    && if |names| == 1 then names[0] in Names(root)
       else Leads(defs, root, names[..|names| - 1]) && Refers(defs, names[|names| - 2], names[|names| - 1])
  }

  ghost predicate Refers(defs: Definitions, name: string, next: string) {
    name in defs && next in Names(defs[name])
  }

  ghost predicate Reachable(defs: Definitions, root: Json, name: string) {
    exists names :: Leads(defs, root, names) && names[|names| - 1] == name
  }

  /** The selection of a root: the definitions reachable from it and no others, all of
      them known, each as the source has it. */
  ghost predicate Selects(source: Definitions, root: Json, selected: Definitions) {
    && (forall n :: Reachable(source, root, n) <==> n in selected)
    && forall n :: n in selected ==> n in source && selected[n] == source[n]
  }

  // ---- Reachability.

  lemma RootNamesReachable(defs: Definitions, root: Json, name: string)
    requires name in Names(root)
    ensures Reachable(defs, root, name)
  {
    assert Leads(defs, root, [name]);
  }

  lemma NextReachable(defs: Definitions, root: Json, name: string, next: string)
    requires Reachable(defs, root, name) && name in defs && next in Names(defs[name])
    ensures Reachable(defs, root, next)
  {
    var names :| Leads(defs, root, names) && names[|names| - 1] == name;
    assert (names + [next])[..|names|] == names;
    assert Leads(defs, root, names + [next]);
  }

  // A set that holds the root's names and is closed under reference holds all that is reachable.
  lemma {:induction false} ClosedHoldsReachable(defs: Definitions, root: Json, closed: set<string>, names: seq<string>)
    requires Names(root) <= closed && forall n :: n in closed && n in defs ==> Names(defs[n]) <= closed
    requires Leads(defs, root, names)
    ensures names[|names| - 1] in closed
  {
    if |names| > 1 {
      ClosedHoldsReachable(defs, root, closed, names[..|names| - 1]);
    }
  }

  // `after` extends `before`, and the names of everything added are themselves selected.
  ghost predicate Grew(source: Definitions, before: set<string>, after: set<string>) {
    && before <= after
    && forall n :: n in after && n !in before && n in source ==> Names(source[n]) <= after
  }

  // Source definitions, all reachable.
  ghost predicate Sound(source: Definitions, root: Json, selected: Definitions) {
    forall n :: n in selected ==> n in source && selected[n] == source[n] && Reachable(source, root, n)
  }

  ghost predicate Broken(source: Definitions, root: Json, r: Outcome) {
    r.Unknown? && r.path !in source && Reachable(source, root, r.path)
  }

  // The keys the selection follows.
  const REFERENCE_KEYS := ["ref", "apply"]

  class Selection {
    const source: Definitions
    ghost const root: Json
    var definitions: Definitions

    constructor (source: Definitions, root: Json)
      ensures this.source == source && this.root == root && definitions == map[]
    {
      this.source, this.root, definitions := source, root, map[];
    }

    method Include(path: string) returns (r: Outcome)
      requires Sound(source, root, definitions) && Reachable(source, root, path)
      modifies this
      ensures Sound(source, root, definitions) && old(definitions.Keys) <= definitions.Keys
      ensures r.Selected? ==> Grew(source, old(definitions.Keys), definitions.Keys) && path in definitions
      ensures r.Unknown? ==> Broken(source, root, r)
      decreases source.Keys - definitions.Keys, 0
    {
      if path in definitions { return Selected; }
      if path !in source { return Unknown(path); }
      definitions := definitions[path := source[path]];
      assert definitions.Keys == old(definitions.Keys) + {path};
      forall n | n in Names(source[path]) ensures Reachable(source, root, n) {
        NextReachable(source, root, path, n);
      }
      r := Visit(source[path]);
    }

    method Visit(value: Json) returns (r: Outcome)
      requires Sound(source, root, definitions) && forall n :: n in Names(value) ==> Reachable(source, root, n)
      modifies this
      ensures Sound(source, root, definitions) && old(definitions.Keys) <= definitions.Keys
      ensures r.Selected? ==> Grew(source, old(definitions.Keys), definitions.Keys) && Names(value) <= definitions.Keys
      ensures r.Unknown? ==> Broken(source, root, r)
      decreases source.Keys - definitions.Keys, 1, value, 1
    {
      match value {
        case Object(fields) =>
          if "graph" in fields { return Selected; }
          r := VisitReferences(value);
          if r.Unknown? { return; }
          r := VisitChildren(value);
        case Array(items) =>
          for i := 0 to |items|
            invariant Sound(source, root, definitions) && Grew(source, old(definitions.Keys), definitions.Keys)
            invariant forall j :: 0 <= j < i ==> Names(items[j]) <= definitions.Keys
          {
            r := Visit(items[i]);
            if r.Unknown? { return; }
          }
          r := Selected;
        case _ => r := Selected;
      }
    }

    method VisitReferences(value: Json) returns (r: Outcome)
      requires value.Object? && Sound(source, root, definitions) && forall n :: n in Named(value.fields) ==>
               Reachable(source, root, n)
      modifies this
      ensures Sound(source, root, definitions) && old(definitions.Keys) <= definitions.Keys
      ensures r.Selected? ==>
              Grew(source, old(definitions.Keys), definitions.Keys) && Named(value.fields) <= definitions.Keys
      ensures r.Unknown? ==> Broken(source, root, r)
      decreases source.Keys - definitions.Keys, 1, value, 0
    {
      for i := 0 to |REFERENCE_KEYS|
        invariant Sound(source, root, definitions) && Grew(source, old(definitions.Keys), definitions.Keys)
        invariant forall j | 0 <= j < i && REFERENCE_KEYS[j] in value.fields ::
                    value.fields[REFERENCE_KEYS[j]].Text? ==> value.fields[REFERENCE_KEYS[j]].text in definitions
      {
        var key := REFERENCE_KEYS[i];
        if key in value.fields && value.fields[key].Text? {
          r := Include(value.fields[key].text);
          if r.Unknown? { return; }
        }
      }
      assert REFERENCE_KEYS[0] == "ref" && REFERENCE_KEYS[1] == "apply";
      r := Selected;
    }

    method VisitChildren(value: Json) returns (r: Outcome)
      requires value.Object? && !Scoped(value) && Sound(source, root, definitions)
      requires forall n :: n in Names(value) ==> Reachable(source, root, n)
      modifies this
      ensures Sound(source, root, definitions) && old(definitions.Keys) <= definitions.Keys
      ensures r.Selected? ==> Grew(source, old(definitions.Keys), definitions.Keys)
      ensures r.Selected? ==> forall k :: k in value.fields && !IsReference(k) ==>
              Names(value.fields[k]) <= definitions.Keys
      ensures r.Unknown? ==> Broken(source, root, r)
      decreases source.Keys - definitions.Keys, 1, value, 0
    {
      var left := value.fields.Keys;
      while left != {}
        invariant left <= value.fields.Keys
        invariant Sound(source, root, definitions) && Grew(source, old(definitions.Keys), definitions.Keys)
        invariant forall k :: k in value.fields && k !in left && !IsReference(k) ==>
                  Names(value.fields[k]) <= definitions.Keys
      {
        var key :| key in left;
        left := left - {key};
        if key !in REFERENCE_KEYS {
          r := Visit(value.fields[key]);
          if r.Unknown? { return; }
        }
      }
      r := Selected;
    }
  }

  /** Selection ends on cyclic definitions, yields exactly what the root reaches, and
      fails exactly when that includes an unknown name. */
  method Select(source: Definitions, root: Json) returns (r: Outcome, selected: Definitions)
    ensures r.Selected? ==> Selects(source, root, selected)
    ensures r.Unknown? ==> Reachable(source, root, r.path) && r.path !in source
    ensures r.Selected? <==> forall n :: Reachable(source, root, n) ==> n in source
  {
    var selection := new Selection(source, root);
    forall n | n in Names(root) ensures Reachable(source, root, n) { RootNamesReachable(source, root, n); }
    r := selection.Visit(root);
    selected := selection.definitions;
    if r.Selected? {
      forall n | Reachable(source, root, n) ensures n in selected {
        var names :| Leads(source, root, names) && names[|names| - 1] == n;
        ClosedHoldsReachable(source, root, selected.Keys, names);
      }
    }
  }

  // ---- What a selection preserves.

  lemma {:induction false} SameWays(source: Definitions, root: Json, selected: Definitions, names: seq<string>)
    requires Selects(source, root, selected)
    ensures Leads(source, root, names) <==> Leads(selected, root, names)
  {
    if |names| > 1 {
      var init := names[..|names| - 1];
      SameWays(source, root, selected, init);
      var last := init[|init| - 1];
      if Leads(source, root, init) {
        assert Reachable(source, root, last);
        assert Refers(source, last, names[|names| - 1]) <==> Refers(selected, last, names[|names| - 1]);
      }
    }
  }

  /** Selecting again changes nothing, and no two selections of one root differ. */
  lemma {:induction false} SelectionIsIdempotent(source: Definitions, root: Json, selected: Definitions)
    requires Selects(source, root, selected)
    ensures forall again :: Selects(selected, root, again) <==> again == selected
    ensures forall other :: Selects(source, root, other) ==> other == selected
  {
    forall n ensures Reachable(selected, root, n) <==> Reachable(source, root, n) {
      SameReach(source, root, selected, n);
    }
    assert Selects(selected, root, selected);
    forall again | Selects(selected, root, again) ensures again == selected {
      assert again.Keys == selected.Keys;
    }
    forall other | Selects(source, root, other) ensures other == selected {
      assert other.Keys == selected.Keys;
    }
  }

  lemma SameReach(source: Definitions, root: Json, selected: Definitions, n: string)
    requires Selects(source, root, selected)
    ensures Reachable(selected, root, n) <==> Reachable(source, root, n)
  {
    forall names: seq<string> ensures Leads(source, root, names) <==> Leads(selected, root, names) {
      SameWays(source, root, selected, names);
    }
  }

  // A value with its references replaced by what they name, to a depth.
  datatype Unfolding =
    | Cut
    | Missing(name: string)
    | Opaque(value: Json)
    | Fields(parts: map<string, Unfolding>)
    | Items(elements: seq<Unfolding>)

  ghost function Unfold(defs: Definitions, v: Json, depth: nat): Unfolding
    decreases depth, v
  {
    match v
    case Object(fields) =>
      if Scoped(v) then Opaque(v)
      else Fields(map k | k in fields ::
        if !IsReference(k) then Unfold(defs, fields[k], depth)
        else if !fields[k].Text? then Opaque(fields[k])
        else if fields[k].text !in defs then Missing(fields[k].text)
        else if depth == 0 then Cut
        else Unfold(defs, defs[fields[k].text], depth - 1))
    case Array(items) => Items(seq(|items|, i requires 0 <= i < |items| => Unfold(defs, items[i], depth)))
    case _ => Opaque(v)
  }

  /** Every finite unfolding of the root is the same from the selection as from the source. */
  lemma {:induction false} SelectionKeepsMeaning(source: Definitions, root: Json, selected: Definitions, depth: nat)
    requires Selects(source, root, selected)
    ensures Unfold(selected, root, depth) == Unfold(source, root, depth)
  {
    forall n | n in Names(root) ensures n in selected { RootNamesReachable(source, root, n); }
    forall m, n | m in selected && n in Names(selected[m]) ensures n in selected { NextReachable(source, root, m, n); }
    SameUnfolding(source, selected, root, depth);
  }

  lemma {:induction false} SameUnfolding(source: Definitions, selected: Definitions, v: Json, depth: nat)
    requires forall n :: n in selected ==>
             n in source && selected[n] == source[n] && Names(selected[n]) <= selected.Keys
    requires Names(v) <= selected.Keys
    ensures Unfold(selected, v, depth) == Unfold(source, v, depth)
    decreases depth, v
  {
    match v
    case Object(fields) =>
      if !Scoped(v) {
        var a, b := Unfold(selected, v, depth).parts, Unfold(source, v, depth).parts;
        forall k | k in fields ensures a[k] == b[k] {
          if !IsReference(k) {
            SameUnfolding(source, selected, fields[k], depth);
          } else if fields[k].Text? {
            assert fields[k].text in Named(fields);
            if depth > 0 { SameUnfolding(source, selected, source[fields[k].text], depth - 1); }
          }
        }
        assert a == b;
      }
    case Array(items) =>
      forall i | 0 <= i < |items| ensures Unfold(selected, items[i], depth) == Unfold(source, items[i], depth) {
        SameUnfolding(source, selected, items[i], depth);
      }
    case _ =>
  }
}
