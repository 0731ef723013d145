/**
 What a record's inherited fields mean: every base evaluated in an environment of its own,
 nested along its inheritance path. And the walk that binds them for the family that asks.
 */
module DeclarationFields {
  import opened DeclarationModel
  import opened DeclarationBinding
  import opened Wrappers

  // A field as inheritance reaches it, and the same with its type's meaning.
  datatype FieldAt = FieldAt(owner: string, index: nat, field: Member, family: string)

  datatype Placed = Placed(owner: string, index: nat, name: string, typ: Term, family: string)

  type Reached = (string, string)

  function IsRecord(d: Declaration): bool { d.kind.Record? || d.kind.Entity? }

  // Resolves an inheritance target in the family that names it.
  function BaseOf(w: World, source: string, base: Base): Option<Reached> {
    var owner := if base.family == "" then source else base.family;
    if (base.family == "" || (source in w && base.family in w[source].imports)) && base.name in Types(w, owner)
    then Some((owner, base.name)) else None
  }

  ghost function AllTypes(w: World): set<Reached> {
    set f, t | f in w && t in w[f].types :: (f, t)
  }

  /** Reference: each base evaluated in the environment its edge binds in the one before. */
  ghost function Nested(w: World, source: string, t: string, env: Env, stack: set<Reached>): seq<Placed>
    decreases AllTypes(w) - stack, 1, 0
  {
    if t !in Types(w, source) || (source, t) in stack then []
    else
      assert (source, t) in AllTypes(w);
      NestedBases(w, source, Types(w, source)[t].bases, env, stack + {(source, t)})
      + Own(w, source, t, Types(w, source)[t].fields, env)
  }

  ghost function NestedBases(w: World, source: string, bases: seq<Base>, env: Env, stack: set<Reached>): seq<Placed>
    decreases AllTypes(w) - stack, 2, |bases|
  {
    if bases == [] then []
    else
      NestedBases(w, source, bases[..|bases| - 1], env, stack)
      + NestedBase(w, source, bases[|bases| - 1], env, stack)
  }

  lemma NextNested(w: World, source: string, bases: seq<Base>, i: nat, env: Env, stack: set<Reached>)
    requires i < |bases|
    ensures NestedBases(w, source, bases[..i + 1], env, stack) ==
            NestedBases(w, source, bases[..i], env, stack) + NestedBase(w, source, bases[i], env, stack)
  {
    assert bases[..i + 1][..i] == bases[..i];
  }

  ghost function NestedBase(w: World, source: string, base: Base, env: Env, stack: set<Reached>): seq<Placed>
    decreases AllTypes(w) - stack, 2, 0
  {
    match BaseOf(w, source, base)
    case None => []
    case Some((owner, t)) =>
      if !IsRecord(Types(w, owner)[t]) then []
      else Nested(w, owner, t, DenoteBindings(w, source, env, base.with), stack)
  }

  ghost function Own(w: World, source: string, t: string, fields: seq<Member>, env: Env): seq<Placed> {
    seq(|fields|, i requires 0 <= i < |fields| =>
      Placed(t, i, fields[i].name, Denote(w, source, env, fields[i].typ), source))
  }

  // ---- The walk: each base viewed in the asking family's scope, bindings composed on the way.

  ghost function Flattened(w: World, f: string, source: string, t: string, with: Bindings,
                           stack: set<Reached>): seq<FieldAt>
    decreases AllTypes(w) - stack, 1, 0
  {
    if t !in Types(w, source) || (source, t) in stack then []
    else
      assert (source, t) in AllTypes(w);
      FlattenedBases(w, f, source, Types(w, source)[t].bases, with, stack + {(source, t)})
      + BoundOwn(w, f, source, t, Types(w, source)[t].fields, with)
  }

  ghost function FlattenedBases(w: World, f: string, source: string, bases: seq<Base>, with: Bindings,
                                stack: set<Reached>): seq<FieldAt>
    decreases AllTypes(w) - stack, 2, |bases|
  {
    if bases == [] then []
    else
      FlattenedBases(w, f, source, bases[..|bases| - 1], with, stack)
      + FlattenedBase(w, f, source, bases[|bases| - 1], with, stack)
  }

  ghost function FlattenedBase(w: World, f: string, source: string, base: Base, with: Bindings,
                               stack: set<Reached>): seq<FieldAt>
    decreases AllTypes(w) - stack, 2, 0
  {
    match BaseOf(w, source, base)
    case None => []
    case Some((owner, t)) =>
      if !IsRecord(Types(w, owner)[t]) then []
      else Flattened(w, f, owner, t, BindArguments(w, f, base.with, source, with), stack)
  }

  ghost function BoundOwn(w: World, f: string, source: string, t: string, fields: seq<Member>,
                          with: Bindings): seq<FieldAt> {
    seq(|fields|, i requires 0 <= i < |fields| =>
      FieldAt(t, i, fields[i].(typ := BindExpression(w, f, fields[i].typ, source, with)), source))
  }

  lemma NextBase(w: World, f: string, source: string, bases: seq<Base>, i: nat, with: Bindings, stack: set<Reached>)
    requires i < |bases|
    ensures FlattenedBases(w, f, source, bases[..i + 1], with, stack) ==
            FlattenedBases(w, f, source, bases[..i], with, stack) + FlattenedBase(w, f, source, bases[i], with, stack)
  {
    assert bases[..i + 1][..i] == bases[..i];
  }

  // What the fields found mean to the family that asked.
  ghost function Meaning(w: World, f: string, env: Env, fields: seq<FieldAt>): seq<Placed> {
    seq(|fields|, i requires 0 <= i < |fields| =>
      Placed(fields[i].owner, fields[i].index, fields[i].field.name, Denote(w, f, env, fields[i].field.typ),
        fields[i].family))
  }

  lemma MeaningConcat(w: World, f: string, env: Env, a: seq<FieldAt>, b: seq<FieldAt>)
    ensures Meaning(w, f, env, a + b) == Meaning(w, f, env, a) + Meaning(w, f, env, b)
  {
  }

  // ---- Checked declarations.

  // Arguments fill what a base of the owner uses, as it is used; what they fill are not
  // types of the owner.
  predicate ArgumentsSuit(w: World, family: string, uses: set<Use>, with: Bindings, owner: string, wanted: set<Use>) {
    && "" !in with && with.Keys !! Types(w, owner).Keys
    && forall use <- wanted :: use.parameter in with && Suits(w, family, uses, with[use.parameter], use.drawn)
  }

  predicate EdgeChecked(w: World, family: string, uses: set<Use>, base: Base) {
    match BaseOf(w, family, base)
    case None => true
    case Some((owner, t)) => ArgumentsSuit(w, family, uses, base.with, owner, Uses(w, owner, t))
  }

  predicate DeclarationChecked(w: World, family: string, t: string)
    requires t in Types(w, family)
  {
    var uses, d := Uses(w, family, t), Types(w, family)[t];
    && family != "" && (forall p <- Parameters(uses) :: p != "")
    && (forall i :: 0 <= i < |d.fields| ==> Within(w, family, uses, d.fields[i].typ))
    && forall i :: 0 <= i < |d.bases| ==> EdgeChecked(w, family, uses, d.bases[i])
  }

  // ---- What an edge hands on.

  lemma BoundFillerFills(w: World, f: string, filler: Filler, source: string, with: Bindings, uses: set<Use>,
                         drawn: string)
    requires Suits(w, source, uses, filler, drawn) && Fits(w, source, with, uses)
    ensures Fills(w, BindFiller(w, f, filler, source, with), drawn)
  {
    if drawn == "" {
      if FillerName(filler) in with { assert Use(FillerName(filler), "") in uses; }
    } else if filler.family == "" {
      assert Use(FillerName(filler), drawn) in uses;
    }
  }

  lemma BoundFits(w: World, f: string, arguments: Bindings, source: string, with: Bindings, uses: set<Use>,
                  owner: string, wanted: set<Use>)
    requires ArgumentsSuit(w, source, uses, arguments, owner, wanted) && Fits(w, source, with, uses)
    ensures Fits(w, owner, BindArguments(w, f, arguments, source, with), wanted)
  {
    var r := BindArguments(w, f, arguments, source, with);
    assert r.Keys == arguments.Keys;
    forall use | use in wanted ensures use.parameter in r && Fills(w, r[use.parameter], use.drawn) {
      BoundFillerFills(w, f, arguments[use.parameter], source, with, uses, use.drawn);
    }
  }

  // The same at the type the walk starts from, whose scope is the asking family's own.
  lemma RootFits(w: World, f: string, arguments: Bindings, uses: set<Use>, owner: string, wanted: set<Use>)
    requires (forall p <- Parameters(uses) :: p != "") && ArgumentsSuit(w, f, uses, arguments, owner, wanted)
    ensures Fits(w, owner, BindArguments(w, f, arguments, f, map[]), wanted)
  {
    var r := BindArguments(w, f, arguments, f, map[]);
    assert r.Keys == arguments.Keys;
    forall use | use in wanted ensures use.parameter in r && Fills(w, r[use.parameter], use.drawn) {
      var filler := arguments[use.parameter];
      assert Suits(w, f, uses, filler, use.drawn);
      if use.drawn != "" && filler.family == "" {
        assert Use(FillerName(filler), use.drawn) in uses && FillerName(filler) in Parameters(uses);
        assert BindExpression(w, f, filler.typ, f, map[]) == filler.typ;
      }
    }
  }
}
