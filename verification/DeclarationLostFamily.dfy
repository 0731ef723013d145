/**
 Accepted families in which inheritance changes what a field means: a family draws through
 its one parameter by importing a generic plainly, and a caller without parameters fills it.
 */
module DeclarationLostFamily {
  import opened DeclarationModel
  import opened DeclarationBinding
  import opened DeclarationUses
  import opened DeclarationFields
  import opened DeclarationChecks
  import opened DeclarationPaths
  import opened DeclarationFlattening
  import opened Wrappers

  function RecordOf(bases: seq<Base>, fields: seq<Member>): Declaration {
    Declaration(Record, "", [], bases, fields, Absent, Absent, Absent, [])
  }

  const Envelope := RecordOf([], [])
  const Frame := RecordOf([], [Member("payload", Drawn("S", "Envelope"))])
  const Holder :=
    RecordOf([], [Member("frame", Imported("carrier", "Frame")), Member("envelope", Drawn("P", "Envelope"))])
  const Filling: Bindings := map["P" := Filler(Absent, "probe")]
  const Report := RecordOf([Base("source", "Holder", true, Filling)], [])

  const Probe := Family(map["Envelope" := Envelope], {}, [], map["Envelope" := {}])
  const Carrier := Family(map["Frame" := Frame], {}, [Parameter("S", true)], map["Frame" := {Use("S", "Envelope")}])
  const Source :=
    Family(map["Holder" := Holder], {"carrier"}, [Parameter("P", true)], map["Holder" := {Use("P", "Envelope")}])
  const Caller := Family(map["Report" := Report], {"source", "carrier", "probe"}, [], map["Report" := {}])

  const Families: World := map["probe" := Probe, "carrier" := Carrier, "source" := Source, "caller" := Caller]

  // A world that has the four families, whatever else it has.
  ghost predicate Holds(w: World) {
    && "probe" in w && w["probe"] == Probe && "carrier" in w && w["carrier"] == Carrier
    && "source" in w && w["source"] == Source && "caller" in w && w["caller"] == Caller
  }

  // ---- Each family carries its least solution: no type's uses depend on another's.

  lemma {:induction false} ConstantIsLeast(w: World, f: string)
    requires f in w && w[f].uses.Keys == w[f].types.Keys
    requires forall u: Table, t :: t in Types(w, f) ==> TypeUses(w, f, u, t) == w[f].uses[t]
    ensures Solves(w, f, w[f].uses) && Least(w, f, w[f].uses)
  {
    var none: Table := map[];
    forall t | t in w[f].uses ensures Inside(BoundsOf(w, f), w[f].uses[t]) {
      TypeUsesGrow(w, f, none, none, t);
    }
    forall v: Table | Solves(w, f, v) ensures Below(w[f].uses, v) {
    }
  }

  // A family of one type, its equation already known to be constant.
  lemma {:induction false} OneTypeAccepted(w: World, f: string, t: string)
    requires f in w && f != "" && w[f].uses.Keys == w[f].types.Keys == {t} && ParametersAccepted(w, f, w[f].parameters)
    requires TypeAccepted(w, f, t) && forall u: Table :: TypeUses(w, f, u, t) == w[f].uses[t]
    ensures FamilyAccepted(w, f)
  {
    ConstantIsLeast(w, f);
  }

  // A type of one expression and no parameters uses what that expression does.
  lemma {:induction false} OneExpression(w: World, f: string, u: Table, t: string, e: Expr)
    requires t in Types(w, f) && Types(w, f)[t].parameters == []
             && Expressions(Types(w, f)[t]) == [e, Absent, Absent, Absent]
    ensures TypeUses(w, f, u, t) == ExprUses(w, f, u, e, Scope(w, f, t), {t})
  {
    var expressions := Expressions(Types(w, f)[t]);
    assert expressions[0] == e && expressions[1] == Absent && expressions[2] == Absent && expressions[3] == Absent;
  }

  // A record of one field, with neither parameters nor bases, is accepted if its field resolves.
  lemma {:induction false} OneFieldAccepted(w: World, f: string, t: string, m: Member)
    requires t in Types(w, f) && Types(w, f)[t] == RecordOf([], [m]) && m.name != ""
             && Resolves(w, f, Scope(w, f, t), m.typ)
    ensures TypeAccepted(w, f, t)
  {
    assert Written(RecordOf([], [m])) == [m.typ, Absent, Absent, Absent];
    assert [m][1..] == [] && Names([]) == {};
    assert KeyAmong([m], "") == KeyAmong([m][1..], "") == Absent;
  }

  // A record of two fields, the same.
  lemma {:induction false} TwoFieldsAccepted(w: World, f: string, t: string, m: Member, n: Member)
    requires t in Types(w, f) && Types(w, f)[t] == RecordOf([], [m, n]) && m.name != "" && n.name != ""
    requires Resolves(w, f, Scope(w, f, t), m.typ) && Resolves(w, f, Scope(w, f, t), n.typ)
    ensures TypeAccepted(w, f, t)
  {
    assert Written(RecordOf([], [m, n])) == [m.typ, n.typ, Absent, Absent, Absent];
    assert [m, n][1..] == [n] && [n][1..] == [] && Names([]) == {};
    assert KeyAmong([m, n], "") == KeyAmong([m, n][1..], "");
    assert KeyAmong([n], "") == KeyAmong([n][1..], "") == Absent;
  }

  // A type of two expressions and no parameters uses what they do.
  lemma {:induction false} TwoExpressions(w: World, f: string, u: Table, t: string, a: Expr, b: Expr)
    requires t in Types(w, f) && Types(w, f)[t].parameters == []
             && Expressions(Types(w, f)[t]) == [a, b, Absent, Absent, Absent]
    ensures TypeUses(w, f, u, t) ==
            ExprUses(w, f, u, a, Scope(w, f, t), {t}) + ExprUses(w, f, u, b, Scope(w, f, t), {t})
  {
    var expressions := Expressions(Types(w, f)[t]);
    assert expressions[0] == a && expressions[1] == b;
    assert expressions[2] == Absent && expressions[3] == Absent && expressions[4] == Absent;
  }

  lemma OneParameter(w: World, f: string, name: string)
    requires f in w && w[f].parameters == [Parameter(name, true)] && name != "" && name !in w[f].types
    ensures ParametersAccepted(w, f, w[f].parameters) && FamilyParameters(w, f) == [name]
    ensures forall t :: t in Types(w, f) ==> Declares(Scope(w, f, t), name, true)
  {
    assert Names([Parameter(name, true)]) == {name};
    assert OfFamily([]) == [] && OfFamily([Parameter(name, true)]) == [name];
  }

  lemma ProbeAccepted(w: World)
    requires Holds(w)
    ensures FamilyAccepted(w, "probe")
  {
    assert Expressions(Envelope) == [Absent, Absent, Absent] && Written(Envelope) == [Absent, Absent, Absent];
    assert Names([]) == {};
    assert TypeAccepted(w, "probe", "Envelope");
    OneTypeAccepted(w, "probe", "Envelope");
  }

  lemma CarrierUses(w: World, u: Table)
    requires Holds(w)
    ensures TypeUses(w, "carrier", u, "Frame") == {Use("S", "Envelope")}
  {
    assert Expressions(Frame) == [Drawn("S", "Envelope"), Absent, Absent, Absent];
    OneExpression(w, "carrier", u, "Frame", Drawn("S", "Envelope"));
    OneParameter(w, "carrier", "S");
  }

  lemma CarrierAccepted(w: World)
    requires Holds(w)
    ensures FamilyAccepted(w, "carrier")
  {
    OneParameter(w, "carrier", "S");
    OneFieldAccepted(w, "carrier", "Frame", Member("payload", Drawn("S", "Envelope")));
    forall u: Table ensures TypeUses(w, "carrier", u, "Frame") == Carrier.uses["Frame"] { CarrierUses(w, u); }
    OneTypeAccepted(w, "carrier", "Frame");
  }

  lemma ImportUses(w: World, u: Table)
    requires Holds(w)
    ensures ExprUses(w, "source", u, Imported("carrier", "Frame"), Scope(w, "source", "Holder"), {"Holder"}) ==
            {Use("P", "Envelope")}
  {
    var scope := Scope(w, "source", "Holder");
    OneParameter(w, "source", "P");
    OneParameter(w, "carrier", "S");
    assert TargetUses(w, "source", u, "carrier", "Frame") == {Use("S", "Envelope")};
    assert SlotUses(w, "source", u, "carrier", Scope(w, "carrier", "Frame"), Use("S", "Envelope"), map[], map[],
           scope) ==
           {Use("P", "Envelope")};
  }

  lemma SourceUses(w: World, u: Table)
    requires Holds(w)
    ensures TypeUses(w, "source", u, "Holder") == {Use("P", "Envelope")}
  {
    var frame, envelope := Imported("carrier", "Frame"), Drawn("P", "Envelope");
    assert Expressions(Holder) == [frame, envelope, Absent, Absent, Absent];
    TwoExpressions(w, "source", u, "Holder", frame, envelope);
    ImportUses(w, u);
    OneParameter(w, "source", "P");
  }

  lemma HolderAccepted(w: World)
    requires Holds(w)
    ensures TypeAccepted(w, "source", "Holder")
  {
    OneParameter(w, "source", "P");
    OneParameter(w, "carrier", "S");
    assert Wanted(w, "carrier", "Frame", false) == {"S"};
    TwoFieldsAccepted(w, "source", "Holder", Member("frame", Imported("carrier", "Frame")),
                      Member("envelope", Drawn("P", "Envelope")));
  }

  lemma SourceAccepted(w: World)
    requires Holds(w)
    ensures FamilyAccepted(w, "source")
  {
    OneParameter(w, "source", "P");
    HolderAccepted(w);
    forall u: Table ensures TypeUses(w, "source", u, "Holder") == Source.uses["Holder"] { SourceUses(w, u); }
    OneTypeAccepted(w, "source", "Holder");
  }

  lemma CallerUses(w: World, u: Table)
    requires Holds(w)
    ensures TypeUses(w, "caller", u, "Report") == {}
  {
    var e := Apply("source", "Holder", Filling);
    assert Expressions(Report) == [e, Absent, Absent, Absent];
    OneExpression(w, "caller", u, "Report", e);
    OneParameter(w, "source", "P");
    assert TargetUses(w, "caller", u, "source", "Holder") == {Use("P", "Envelope")};
  }

  lemma ReportResolves(w: World)
    requires Holds(w)
    ensures BaseOf(w, "caller", Report.bases[0]) == Some(("source", "Holder"))
    ensures EdgeResolves(w, "caller", Scope(w, "caller", "Report"), Report.bases[0])
  {
    OneParameter(w, "source", "P");
    assert Wanted(w, "source", "Holder", false) == {"P"};
    assert Uses(w, "probe", "Envelope") == {};
  }

  lemma CallerAccepted(w: World)
    requires Holds(w)
    ensures FamilyAccepted(w, "caller")
  {
    ReportResolves(w);
    assert Written(Report) == [Absent, Absent, Absent];
    assert Names([]) == {};
    assert TypeAccepted(w, "caller", "Report");
    forall u: Table ensures TypeUses(w, "caller", u, "Report") == Caller.uses["Report"] { CallerUses(w, u); }
    OneTypeAccepted(w, "caller", "Report");
  }

  function Ranks(): map<string, nat> { map["probe" := 0, "carrier" := 0, "source" := 1, "caller" := 2] }

  lemma AllOrdered(w: World)
    requires Holds(w)
    ensures Ordered(w, {"probe", "carrier", "source", "caller"}, Ranks())
  {
    assert Imports(w, "probe") == {} && Imports(w, "carrier") == {};
    assert Imports(w, "source") == {"carrier"} && Imports(w, "caller") == {"source", "carrier", "probe"};
  }

  lemma AllAccepted(w: World)
    requires Holds(w)
    ensures Accepted(w, {"probe", "carrier", "source", "caller"})
  {
    ProbeAccepted(w);
    CarrierAccepted(w);
    SourceAccepted(w);
    CallerAccepted(w);
    AllOrdered(w);
  }

  // Each parameter is mentioned where it is drawn through.
  lemma DrawnIsMentioned(w: World, f: string, t: string, p: string, x: string)
    requires t in Types(w, f) && Drawn(p, x) in Expressions(Types(w, f)[t])
             && ParametersOf(w, f) == [Parameter(p, true)]
    ensures ParametersMentioned(w, f)
  {
    assert p in Mentioned(Drawn(p, x));
  }

  lemma AllMentioned(w: World)
    requires Holds(w)
    ensures forall f <- {"probe", "carrier", "source", "caller"} :: ParametersMentioned(w, f)
  {
    assert Expressions(Frame)[0] == Drawn("S", "Envelope") && Expressions(Holder)[1] == Drawn("P", "Envelope");
    DrawnIsMentioned(w, "carrier", "Frame", "S", "Envelope");
    DrawnIsMentioned(w, "source", "Holder", "P", "Envelope");
    assert ParametersOf(w, "probe") == [] && ParametersOf(w, "caller") == [];
  }

  // What the inherited field means at home, and what it means to the caller.
  lemma MeansTwoThings(w: World)
    requires Holds(w)
    ensures var e := Holder.fields[0].typ; var envS := DenoteBindings(w, "caller", map[], Filling);
            && Denote(w, "source", envS, e) == Declared("carrier", "Frame", map["S" := FamilyValue("probe")])
            && Denote(w, "caller", map[], BindExpression(w, "caller", e, "source", Filling)) ==
               Declared("carrier", "Frame", map[])
  {
    var envS := DenoteBindings(w, "caller", map[], Filling);
    OneParameter(w, "source", "P");
    assert OneFamily(w, "source", envS) == [FamilyValue("probe")] by { assert "P" in Filling; }
    assert OfFamily([]) == [] && OneFamily(w, "caller", map[]) == [];
    assert Uses(w, "carrier", "Frame") == {Use("S", "Envelope")};
    assert Inferred(w, "source", envS, {Use("S", "Envelope")}) == map["S" := FamilyValue("probe")];
  }

  // The imported frame spoils: the caller has no family parameter to hand on.
  lemma HolderSpoils(w: World, bound: Bindings, spoiled: set<string>, stack: set<Reached>)
    requires Holds(w) && "P" in bound && ("source", "Holder") !in stack
    ensures !NothingSpoils(w, "caller", "source", "Holder", bound, Keeps(w, "caller", "source", bound), spoiled, stack)
  {
    OneParameter(w, "source", "P");
    assert OfFamily([]) == [];
    assert Use("S", "Envelope") in Uses(w, "carrier", "Frame");
    assert Spoils(w, "source", Types(w, "source")["Holder"].fields[0].typ, false, spoiled);
  }

  lemma ReportSpoils(w: World)
    requires Holds(w)
    ensures !NothingSpoils(w, "caller", "caller", "Report", map[], true, {}, {})
  {
    var base, stack := Report.bases[0], {("caller", "Report")};
    ReportResolves(w);
    var bound := BindArguments(w, "caller", base.with, "caller", map[]);
    assert "P" in base.with;
    HolderSpoils(w, bound, SpoiledBy(w, "caller", base.with, Uses(w, "source", "Holder"), true, {}), stack);
    assert !BaseSpoilsNothing(w, "caller", "caller", base, map[], true, {}, stack);
    NextSpoilsNothing(w, "caller", "caller", "Report", Report.bases, 0, map[], true, {}, stack);
    assert Report.bases[..0 + 1] == Report.bases && {} + {("caller", "Report")} == stack;
    assert Types(w, "caller")["Report"] == Report;
  }

  /** The checks accept a record whose inherited field then means something else to the family
      that inherits it: the family its parameter was filled with is lost. So the record
      flattened does not mean what nested evaluation gives. */
  lemma {:induction false} InferredFamilyIsLost()
    ensures var w := Families; var base := Report.bases[0]; var e := Holder.fields[0].typ;
            && Accepted(w, {"probe", "carrier", "source", "caller"})
            && (forall f <- {"probe", "carrier", "source", "caller"} :: ParametersMentioned(w, f))
            && BaseOf(w, "caller", base) == Some(("source", "Holder"))
            && Types(w, "caller") == map["Report" := Report] && Types(w, "source") == map["Holder" := Holder]
            && Denote(w, "source", DenoteBindings(w, "caller", map[], base.with), e) ==
               Declared("carrier", "Frame", map["S" := FamilyValue("probe")])
            && Denote(w, "caller", map[], BindExpression(w, "caller", e, "source", base.with)) ==
               Declared("carrier", "Frame", map[])
            && !MeansNested(w, "caller", "Report", Flattened(w, "caller", "caller", "Report", map[], {}))
  {
    assert Holds(Families);
    AllAccepted(Families);
    AllMentioned(Families);
    ReportResolves(Families);
    MeansTwoThings(Families);
    ReportSpoils(Families);
    FlatteningMeansNestedIff(Families, {"probe", "carrier", "source", "caller"}, "caller", "Report");
  }
}
