// The report schema's conditional, a gap in coverage means an incomplete outcome, and whether the
// verdicts that Evaluate gives keep it.
module ReportSchema {
  import opened Options
  import opened Sorting
  import opened Evidence
  import opened Policy
  import opened PolicyOutcome
  import S = Schema

  // ---- The conditional ----

  function Typed(typ: string, required: seq<string>, properties: map<string, S.Schema>, minItems: Option<int>)
    : S.Schema {
    S.Schema(typ, required, properties, S.NoSchema, [], minItems, None, "", map[], [])
  }

  function Enum(typ: string, values: seq<S.JSON>): S.Schema {
    S.Schema(typ, [], map[], S.NoSchema, values, None, None, "", map[], [])
  }

  const NON_EMPTY_ARRAY := Typed("array", [], map[], Some(1))
  const HAS_UNAVAILABLE := Typed("object", ["unavailable"], map["unavailable" := NON_EMPTY_ARRAY], None)
  const UNCOVERED_UNAVAILABLE := Typed("object", ["uncovered"], map["uncovered" := HAS_UNAVAILABLE], None)
  const OUTCOME_INCOMPLETE := Typed("object", [], map["outcome" := Enum("", [S.JStr("incomplete")])], None)
  const UNAVAILABLE_RULE := S.Rule(UNCOVERED_UNAVAILABLE, OUTCOME_INCOMPLETE)
  const OUTCOME_PROPERTY := Enum("string",
    [S.JStr("cleared"), S.JStr("cleared-with-residual-risk"), S.JStr("blocked"), S.JStr("incomplete")])

  // What of the report schema's root matters here: an object with a required outcome, and the conditional.
  ghost predicate ReportRoot(root: S.Schema) {
    && root.Schema? && root.typ == "object" && root.ref == ""
    && "outcome" in root.required
    && "outcome" in root.properties && root.properties["outcome"] == OUTCOME_PROPERTY
    && UNAVAILABLE_RULE in root.allOf
  }

  predicate NonEmptyUnavailable(v: S.JSON) {
    && v.JObj? && "uncovered" in v.fields
    && var u := v.fields["uncovered"];
       && u.JObj? && "unavailable" in u.fields
       && u.fields["unavailable"].JArr? && |u.fields["unavailable"].items| > 0
  }

  // Strings are written as themselves.
  ghost predicate WritesStrings(ctx: S.Context) {
    forall s :: ctx.render(S.JStr(s)) == s
  }

  // The if part: exactly the objects whose uncovered.unavailable is a non-empty array.
  lemma {:induction false} ConditionExactly(ctx: S.Context, sat: S.Meaning, v: S.JSON)
    requires S.Acyclic(ctx) && S.IsMeaning(ctx, sat) && UNCOVERED_UNAVAILABLE in ctx.schemas
    ensures sat(UNCOVERED_UNAVAILABLE, v) <==> NonEmptyUnavailable(v)
  {
    assert S.EdgesStay(ctx, UNCOVERED_UNAVAILABLE);
    assert UNCOVERED_UNAVAILABLE.properties["uncovered"] == HAS_UNAVAILABLE;
    assert S.EdgesStay(ctx, HAS_UNAVAILABLE);
    assert HAS_UNAVAILABLE.properties["unavailable"] == NON_EMPTY_ARRAY;
    assert S.Settled(ctx, sat, UNCOVERED_UNAVAILABLE, v);
    if v.JObj? && "uncovered" in v.fields {
      var u := v.fields["uncovered"];
      InnerCondition(ctx, sat, u);
      assert S.FieldHolds(sat, UNCOVERED_UNAVAILABLE, v.fields, "uncovered") <==> sat(HAS_UNAVAILABLE, u);
    }
  }

  lemma {:induction false} InnerCondition(ctx: S.Context, sat: S.Meaning, u: S.JSON)
    requires S.Acyclic(ctx) && S.IsMeaning(ctx, sat) && HAS_UNAVAILABLE in ctx.schemas && NON_EMPTY_ARRAY in ctx.schemas
    ensures sat(HAS_UNAVAILABLE, u) <==>
      u.JObj? && "unavailable" in u.fields && u.fields["unavailable"].JArr? && |u.fields["unavailable"].items| > 0
  {
    assert S.Settled(ctx, sat, HAS_UNAVAILABLE, u);
    if u.JObj? && "unavailable" in u.fields {
      assert S.Settled(ctx, sat, NON_EMPTY_ARRAY, u.fields["unavailable"]);
      assert S.FieldHolds(sat, HAS_UNAVAILABLE, u.fields, "unavailable") <==> sat(NON_EMPTY_ARRAY, u.fields["unavailable"]);
    }
  }

  // The then part.
  lemma {:induction false} ConsequenceExactly(ctx: S.Context, sat: S.Meaning, v: S.JSON)
    requires S.Acyclic(ctx) && S.IsMeaning(ctx, sat) && OUTCOME_INCOMPLETE in ctx.schemas
    ensures sat(OUTCOME_INCOMPLETE, v) <==>
      v.JObj? && ("outcome" in v.fields ==> ctx.render(v.fields["outcome"]) == ctx.render(S.JStr("incomplete")))
  {
    var enum := Enum("", [S.JStr("incomplete")]);
    assert S.EdgesStay(ctx, OUTCOME_INCOMPLETE);
    assert OUTCOME_INCOMPLETE.properties["outcome"] == enum;
    assert S.Settled(ctx, sat, OUTCOME_INCOMPLETE, v);
    if v.JObj? && "outcome" in v.fields {
      assert S.Settled(ctx, sat, enum, v.fields["outcome"]);
      assert S.FieldHolds(sat, OUTCOME_INCOMPLETE, v.fields, "outcome") <==> sat(enum, v.fields["outcome"]);
    }
  }

  lemma {:induction false} RuleExactly(ctx: S.Context, sat: S.Meaning, v: S.JSON)
    requires S.Acyclic(ctx) && S.IsMeaning(ctx, sat) && UNCOVERED_UNAVAILABLE in ctx.schemas && OUTCOME_INCOMPLETE in ctx.schemas
    ensures S.RuleHolds(sat, UNAVAILABLE_RULE, v) <==>
      (NonEmptyUnavailable(v) && "outcome" in v.fields ==> ctx.render(v.fields["outcome"]) == ctx.render(S.JStr("incomplete")))
  {
    ConditionExactly(ctx, sat, v);
    ConsequenceExactly(ctx, sat, v);
  }

  lemma {:induction false} RootGives(ctx: S.Context, sat: S.Meaning, root: S.Schema, v: S.JSON)
    requires ReportRoot(root) && S.Keywords(ctx, sat, root, v)
    ensures v.JObj? && "outcome" in v.fields && sat(OUTCOME_PROPERTY, v.fields["outcome"])
    ensures S.RuleHolds(sat, UNAVAILABLE_RULE, v)
  {
    var n :| 0 <= n < |root.allOf| && root.allOf[n] == UNAVAILABLE_RULE;
    assert S.RuleHolds(sat, root.allOf[n], v);
    assert S.FieldHolds(sat, root, v.fields, "outcome");
  }

  lemma {:induction false} OutcomeIsString(ctx: S.Context, sat: S.Meaning, o: S.JSON)
    requires S.IsMeaning(ctx, sat) && OUTCOME_PROPERTY in ctx.schemas && sat(OUTCOME_PROPERTY, o)
    ensures o.JStr?
  {
    assert S.Settled(ctx, sat, OUTCOME_PROPERTY, o);
  }

  lemma {:induction false} RootReaches(ctx: S.Context)
    requires S.Acyclic(ctx) && ctx.root in ctx.schemas && ReportRoot(ctx.root)
    ensures OUTCOME_PROPERTY in ctx.schemas && UNCOVERED_UNAVAILABLE in ctx.schemas && OUTCOME_INCOMPLETE in ctx.schemas
  {
    var root := ctx.root;
    assert S.EdgesStay(ctx, root);
    assert root.properties["outcome"] in ctx.schemas;
    var n :| 0 <= n < |root.allOf| && root.allOf[n] == UNAVAILABLE_RULE;
    assert root.allOf[n].cond in ctx.schemas && root.allOf[n].conseq in ctx.schemas;
  }

  lemma {:induction false} WrittenIsListed(ctx: S.Context, enums: seq<S.JSON>, o: string)
    requires WritesStrings(ctx) && S.WrittenAsOne(ctx, enums, S.JStr(o)) && forall i | 0 <= i < |enums| :: enums[i].JStr?
    ensures S.JStr(o) in enums
  {
    var i :| 0 <= i < |enums| && ctx.render(enums[i]) == ctx.render(S.JStr(o));
    assert enums[i] == S.JStr(enums[i].s);
  }

  lemma {:induction false} AcceptedOutcome(ctx: S.Context, o: string)
    requires S.Acyclic(ctx) && OUTCOME_PROPERTY in ctx.schemas && WritesStrings(ctx)
    requires S.Validate(ctx, OUTCOME_PROPERTY, S.JStr(o)) == None
    ensures o in {"cleared", "cleared-with-residual-risk", "blocked", "incomplete"}
  {
    S.EnumeratedStringExactly(ctx, OUTCOME_PROPERTY, o);
    WrittenIsListed(ctx, OUTCOME_PROPERTY.enums, o);
  }

  lemma {:induction false} RootOutcome(ctx: S.Context, v: S.JSON)
    requires S.Acyclic(ctx) && ctx.root in ctx.schemas && ReportRoot(ctx.root)
    requires S.Validate(ctx, ctx.root, v) == None
    ensures v.JObj? && "outcome" in v.fields && v.fields["outcome"].JStr? && OUTCOME_PROPERTY in ctx.schemas
    ensures S.Validate(ctx, OUTCOME_PROPERTY, v.fields["outcome"]) == None
  {
    var sat := S.Accepts(ctx);
    S.AcceptsIsMeaning(ctx);
    RootReaches(ctx);
    assert S.Tells(ctx, sat, ctx.root, v) && S.Settled(ctx, sat, ctx.root, v);
    RootGives(ctx, sat, ctx.root, v);
    OutcomeIsString(ctx, sat, v.fields["outcome"]);
    assert S.Tells(ctx, sat, OUTCOME_PROPERTY, v.fields["outcome"]);
  }

  // Every report that the schema accepts has one of four outcomes.
  lemma {:induction false} OutcomeIsOneOfFour(ctx: S.Context, v: S.JSON)
    requires S.Acyclic(ctx) && ctx.root in ctx.schemas && ReportRoot(ctx.root) && WritesStrings(ctx)
    requires S.Validate(ctx, ctx.root, v) == None
    ensures v.JObj? && "outcome" in v.fields && v.fields["outcome"].JStr?
    ensures v.fields["outcome"].s in {"cleared", "cleared-with-residual-risk", "blocked", "incomplete"}
  {
    RootOutcome(ctx, v);
    AcceptedOutcome(ctx, v.fields["outcome"].s);
  }

  // Everything the report schema accepts with a non-empty uncovered.unavailable has outcome "incomplete".
  lemma {:induction false} UnavailableMeansIncomplete(ctx: S.Context, v: S.JSON)
    requires S.Acyclic(ctx) && ctx.root in ctx.schemas && ReportRoot(ctx.root) && WritesStrings(ctx)
    requires S.Validate(ctx, ctx.root, v) == None && NonEmptyUnavailable(v)
    ensures "outcome" in v.fields && v.fields["outcome"] == S.JStr("incomplete")
  {
    var sat := S.Accepts(ctx);
    S.AcceptsIsMeaning(ctx);
    RootReaches(ctx);
    assert S.Tells(ctx, sat, ctx.root, v);
    assert S.Settled(ctx, sat, ctx.root, v);
    RootGives(ctx, sat, ctx.root, v);
    RuleExactly(ctx, sat, v);
    OutcomeIsString(ctx, sat, v.fields["outcome"]);
  }

  // ---- The verdicts ----

  function OutcomeName(o: Outcome): string {
    match o
    case Cleared => "cleared"
    case ClearedWithResidualRisk => "cleared-with-residual-risk"
    case Blocked => "blocked"
    case Incomplete => "incomplete"
  }

  // Every outcome goes by one of the schema's four names, and no two by one.
  lemma {:induction false} OutcomeNamesAccepted(ctx: S.Context, o: Outcome, o': Outcome)
    requires S.Acyclic(ctx) && OUTCOME_PROPERTY in ctx.schemas
    ensures S.Validate(ctx, OUTCOME_PROPERTY, S.JStr(OutcomeName(o))) == None
    ensures o != o' ==> OutcomeName(o) != OutcomeName(o')
  {
    assert OUTCOME_PROPERTY.enums == [S.JStr(OutcomeName(Cleared)), S.JStr(OutcomeName(ClearedWithResidualRisk)),
                                      S.JStr(OutcomeName(Blocked)), S.JStr(OutcomeName(Incomplete))];
    var i := match o case Cleared => 0 case ClearedWithResidualRisk => 1 case Blocked => 2 case Incomplete => 3;
    assert OUTCOME_PROPERTY.enums[i] == S.JStr(OutcomeName(o));
    S.EnumeratedStringExactly(ctx, OUTCOME_PROPERTY, OutcomeName(o));
    assert |OutcomeName(Cleared)| == 7 && |OutcomeName(ClearedWithResidualRisk)| == 26 && |OutcomeName(Incomplete)| == 10;
    assert OutcomeName(Cleared)[0] == 'c' && OutcomeName(Blocked)[0] == 'b';
  }

  // The parts of a report's JSON that the conditional reads, whatever the rest of it is.
  ghost predicate Writes(v: S.JSON, verdict: Verdict) {
    && v.JObj? && "outcome" in v.fields && v.fields["outcome"] == S.JStr(OutcomeName(verdict.outcome))
    && "uncovered" in v.fields && v.fields["uncovered"].JObj?
    && "unavailable" in v.fields["uncovered"].fields
    && v.fields["uncovered"].fields["unavailable"].JArr?
    && |v.fields["uncovered"].fields["unavailable"].items| == |verdict.uncovered.unavailable|
  }

  ghost predicate ConditionalMet(ctx: S.Context, v: S.JSON)
    requires S.Acyclic(ctx)
  {
    S.RuleHolds(S.Accepts(ctx), UNAVAILABLE_RULE, v)
  }

  lemma {:induction false} ConditionalOnVerdict(ctx: S.Context, v: S.JSON, verdict: Verdict)
    requires S.Acyclic(ctx) && UNCOVERED_UNAVAILABLE in ctx.schemas && OUTCOME_INCOMPLETE in ctx.schemas && WritesStrings(ctx)
    requires Writes(v, verdict)
    ensures ConditionalMet(ctx, v) <==> verdict.uncovered.unavailable == [] || verdict.outcome == Incomplete
  {
    S.AcceptsIsMeaning(ctx);
    RuleExactly(ctx, S.Accepts(ctx), v);
    OutcomeNamesDiffer(verdict.outcome);
  }

  lemma {:induction false} OutcomeNamesDiffer(o: Outcome)
    ensures OutcomeName(o) == "incomplete" <==> o == Incomplete
  {
    assert OutcomeName(o) == "incomplete" ==> |OutcomeName(o)| == 10;
    assert OutcomeName(o)[0] == 'i' <==> o == Incomplete;
  }

  // A report that carries Evaluate's verdict meets the conditional exactly when nothing is reported
  // unavailable or some required adapter is not satisfied.
  lemma {:induction false} VerdictMeetsConditionalExactly(ctx: S.Context, sort: Sorter, cfg: Config,
                                                          rep: ReportValue, v: S.JSON)
    requires S.Acyclic(ctx) && UNCOVERED_UNAVAILABLE in ctx.schemas && OUTCOME_INCOMPLETE in ctx.schemas && WritesStrings(ctx)
    requires Writes(v, VerdictOf(sort, cfg, rep))
    ensures ConditionalMet(ctx, v) <==>
      Uncovered(sort, rep).unavailable == [] || exists name | name in cfg.required :: !Satisfied(sort, rep, name)
  {
    ConditionalOnVerdict(ctx, v, VerdictOf(sort, cfg, rep));
    IncompleteExactly(sort, cfg, rep);
    VerdictCarriesUncovered(sort, cfg, rep);
  }

  lemma {:induction false} VerdictCarriesUncovered(sort: Sorter, cfg: Config, rep: ReportValue)
    ensures VerdictOf(sort, cfg, rep).uncovered == SortChecks(sort, Uncovered(sort, rep))
  {
  }

  // So it does whenever an unavailable entry names a required adapter.
  lemma {:induction false} RequiredGapMeetsConditional(ctx: S.Context, sort: Sorter, cfg: Config, rep: ReportValue,
                                                       v: S.JSON, name: string)
    requires S.Acyclic(ctx) && UNCOVERED_UNAVAILABLE in ctx.schemas && OUTCOME_INCOMPLETE in ctx.schemas && WritesStrings(ctx)
    requires Writes(v, VerdictOf(sort, cfg, rep))
    requires name in cfg.required && ReportedUnavailable(rep, name)
    ensures ConditionalMet(ctx, v)
  {
    assert !Satisfied(sort, rep, name);
    VerdictMeetsConditionalExactly(ctx, sort, cfg, rep, v);
  }

  // An optional adapter that is not installed, and nothing else: the verdict is cleared, with the gap
  // listed, and the conditional turns that report away.
  lemma {:induction false} OptionalGapBreaksConditional(ctx: S.Context, sort: Sorter, run: RunOutcome, v: S.JSON)
    requires S.Acyclic(ctx) && UNCOVERED_UNAVAILABLE in ctx.schemas && OUTCOME_INCOMPLETE in ctx.schemas && WritesStrings(ctx)
    requires run.status == NotInstalled && run.findings == []
    requires var rep := ReportValue(false, Incomplete, NoReason, [run], [], UncoveredChecks([], [], [], []), [], "", "");
             Writes(v, VerdictOf(sort, Config([], [], false, []), rep))
    ensures var rep := ReportValue(false, Incomplete, NoReason, [run], [], UncoveredChecks([], [], [], []), [], "", "");
            VerdictOf(sort, Config([], [], false, []), rep).outcome == Cleared
    ensures !ConditionalMet(ctx, v)
  {
    var rep := ReportValue(false, Incomplete, NoReason, [run], [], UncoveredChecks([], [], [], []), [], "", "");
    var cfg := Config([], [], false, []);
    VerdictMeetsConditionalExactly(ctx, sort, cfg, rep, v);
    UncoveredNamesUnavailable(sort, rep, run.tool);
    assert ReportedUnavailable(rep, run.tool);
    var runs := OrderedRuns(sort, rep);
    assert runs[0] in rep.runs;
    assert FindingsOfRuns(runs, 1) == FindingsOfRuns(runs, 0) + [];
    OutcomeExactly(sort, cfg, rep);
  }
}
