// The JSON Schema subset validator.
module Schema {
  import opened Options

  // A parsed JSON value. Numbers are reals: the parser's rounding to a float is not modelled.
  datatype JSON = JNull | JBool(b: bool) | JNum(x: real) | JStr(s: string)
                | JArr(items: seq<JSON>) | JObj(fields: map<string, JSON>)

  // NoSchema is a nil *Schema.
  datatype Schema = NoSchema | Schema(
    typ: string, required: seq<string>, properties: map<string, Schema>, items: Schema,
    enums: seq<JSON>, minItems: Option<int>, additional: Option<bool>,
    ref: string, defs: map<string, Schema>, allOf: seq<Rule>)

  datatype Rule = Rule(cond: Schema, conseq: Schema)

  datatype Problem = BadReference | NotInEnum | NotAnObject | MissingProperty(name: string) | UnexpectedProperty(name: string)
                   | NotAnArray | TooFewItems | WrongType

  // What a validation works with: the root schema; the order in which an object's keys are visited;
  // how values are written for comparison (%v); and, to reason about it, the schemas that can be met
  // and a rank that falls along every edge that stays at one instance.
  datatype Context = Context(
    root: Schema, visit: set<string> -> seq<string>, render: JSON -> string,
    schemas: set<Schema>, rank: Schema -> nat)

  const DEFS_PREFIX := "#/$defs/"

  predicate HasPrefix(s: string, prefix: string) { prefix <= s }

  function ResolveRef(root: Schema, ref: string): Option<Schema> {
    if !HasPrefix(ref, DEFS_PREFIX) || root == NoSchema then None
    else
      var name := ref[|DEFS_PREFIX|..];
      if name in root.defs then Some(root.defs[name]) else None
  }

  // ---- When validation is well founded ----

  // Every schema that can be reached is among ctx.schemas.
  ghost predicate EdgesStay(ctx: Context, s: Schema)
    requires s.Schema?
  {
    && (forall k | k in s.properties :: s.properties[k] in ctx.schemas)
    && s.items in ctx.schemas
    && (forall n | 0 <= n < |s.allOf| :: s.allOf[n].cond in ctx.schemas && s.allOf[n].conseq in ctx.schemas)
    && var target := ResolveRef(ctx.root, s.ref); target.Some? ==> target.value in ctx.schemas
  }

  // The edges that stay at one instance, $ref and if/then, lead downwards.
  ghost predicate EdgesFall(ctx: Context, s: Schema)
    requires s.Schema?
  {
    && (forall n | 0 <= n < |s.allOf| ::
          ctx.rank(s.allOf[n].cond) < ctx.rank(s) && ctx.rank(s.allOf[n].conseq) < ctx.rank(s))
    && (var target := ResolveRef(ctx.root, s.ref); s.ref != "" && target.Some? ==> ctx.rank(target.value) < ctx.rank(s))
  }

  ghost predicate Acyclic(ctx: Context) {
    && (forall s | s in ctx.schemas && s.Schema? :: EdgesStay(ctx, s) && EdgesFall(ctx, s))
    && forall ks, k :: k in ctx.visit(ks) <==> k in ks
  }

  // ---- The validator ----

  predicate IsObjectSchema(s: Schema)
    requires s.Schema?
  {
    s.typ == "object" || (s.typ == "" && (|s.properties| > 0 || |s.required| > 0))
  }

  predicate IsArraySchema(s: Schema)
    requires s.Schema?
  {
    s.typ == "array" || (s.typ == "" && (s.minItems.Some? || s.items.Schema?))
  }

  predicate IsWhole(x: real) { x == x.Floor as real }

  predicate In64Bits(x: real) { -0x8000_0000_0000_0000 <= x.Floor < 0x8000_0000_0000_0000 }

  // Unchanged by conversion to a 64-bit integer and back.
  predicate IsInteger(x: real) { IsWhole(x) && In64Bits(x) }

  predicate ScalarMatches(typ: string, v: JSON) {
    if typ == "string" then v.JStr?
    else if typ == "integer" then v.JNum? && IsInteger(v.x)
    else if typ == "number" then v.JNum?
    else if typ == "boolean" then v.JBool?
    else true
  }

  predicate InEnum(ctx: Context, enums: seq<JSON>, v: JSON) {
    |enums| > 0 ==> exists e | e in enums :: ctx.render(e) == ctx.render(v)
  }

  function FirstMissing(required: seq<string>, fields: map<string, JSON>): (r: Option<string>)
    ensures r == None <==> forall k | k in required :: k in fields
  {
    if required == [] then None
    else if required[0] !in fields then Some(required[0])
    else FirstMissing(required[1..], fields)
  }

  // validateNode
  function Validate(ctx: Context, s: Schema, v: JSON): Option<Problem>
    requires Acyclic(ctx) && s in ctx.schemas
    decreases v, ctx.rank(s), 2, 0
  {
    if s == NoSchema then None
    else if s.ref != "" then
      var target := ResolveRef(ctx.root, s.ref);
      if target == None then Some(BadReference) else Validate(ctx, target.value, v)
    else if !InEnum(ctx, s.enums, v) then Some(NotInEnum)
    else
      var shape := ValidateShape(ctx, s, v);
      if shape != None then shape else ValidateRules(ctx, s, v, 0)
  }

  function ValidateShape(ctx: Context, s: Schema, v: JSON): Option<Problem>
    requires Acyclic(ctx) && s in ctx.schemas && s.Schema?
    decreases v, ctx.rank(s), 1, 0
  {
    if IsObjectSchema(s) then
      if !v.JObj? then Some(NotAnObject)
      else
        var missing := FirstMissing(s.required, v.fields);
        if missing.Some? then Some(MissingProperty(missing.value))
        else ValidateFields(ctx, s, v, ctx.visit(v.fields.Keys))
    else if IsArraySchema(s) then
      if !v.JArr? then Some(NotAnArray)
      else if s.minItems.Some? && |v.items| < s.minItems.value then Some(TooFewItems)
      else if s.items == NoSchema then None
      else ValidateItems(ctx, s, v, 0)
    else if !ScalarMatches(s.typ, v) then Some(WrongType)
    else None
  }

  function ValidateFields(ctx: Context, s: Schema, v: JSON, keys: seq<string>): Option<Problem>
    requires Acyclic(ctx) && s in ctx.schemas && s.Schema? && v.JObj? && forall k | k in keys :: k in v.fields
    decreases v, ctx.rank(s), 0, |keys|
  {
    if keys == [] then None
    else
      var k := keys[0];
      var first :=
        if k in s.properties then Validate(ctx, s.properties[k], v.fields[k])
        else if s.additional == Some(false) then Some(UnexpectedProperty(k))
        else None;
      if first != None then first else ValidateFields(ctx, s, v, keys[1..])
  }

  function ValidateItems(ctx: Context, s: Schema, v: JSON, i: nat): Option<Problem>
    requires Acyclic(ctx) && s in ctx.schemas && s.Schema? && v.JArr? && i <= |v.items|
    decreases v, ctx.rank(s), 0, |v.items| - i
  {
    if i == |v.items| then None
    else
      var first := Validate(ctx, s.items, v.items[i]);
      if first != None then first else ValidateItems(ctx, s, v, i + 1)
  }

  function ValidateRules(ctx: Context, s: Schema, v: JSON, n: nat): Option<Problem>
    requires Acyclic(ctx) && s in ctx.schemas && s.Schema? && n <= |s.allOf|
    decreases v, ctx.rank(s), 0, |s.allOf| - n
  {
    if n == |s.allOf| then None
    else
      var rule := s.allOf[n];
      var first :=
        if rule.cond.Schema? && rule.conseq.Schema? && Validate(ctx, rule.cond, v) == None
        then Validate(ctx, rule.conseq, v) else None;
      if first != None then first else ValidateRules(ctx, s, v, n + 1)
  }

  // ---- What a schema means ----

  // A meaning says which values satisfy which schemas.
  type Meaning = (Schema, JSON) -> bool

  ghost predicate RuleHolds(sat: Meaning, rule: Rule, v: JSON) {
    rule.cond.Schema? && rule.conseq.Schema? && sat(rule.cond, v) ==> sat(rule.conseq, v)
  }

  ghost predicate FieldHolds(sat: Meaning, s: Schema, fields: map<string, JSON>, k: string)
    requires s.Schema? && k in fields
  {
    if k in s.properties then sat(s.properties[k], fields[k]) else s.additional != Some(false)
  }

  // The keywords as this validator reads them: $ref stands alone, and keywords without a type imply one.
  ghost predicate Keywords(ctx: Context, sat: Meaning, s: Schema, v: JSON) {
    if s == NoSchema then true
    else if s.ref != "" then
      var target := ResolveRef(ctx.root, s.ref); target.Some? && sat(target.value, v)
    else
      && InEnum(ctx, s.enums, v)
      && (IsObjectSchema(s) ==>
            && v.JObj?
            && (forall k | k in s.required :: k in v.fields)
            && (forall k | k in v.fields :: FieldHolds(sat, s, v.fields, k)))
      && (!IsObjectSchema(s) && IsArraySchema(s) ==>
            && v.JArr?
            && (s.minItems.Some? ==> |v.items| >= s.minItems.value)
            && (s.items.Schema? ==> forall i | 0 <= i < |v.items| :: sat(s.items, v.items[i])))
      && (!IsObjectSchema(s) && !IsArraySchema(s) ==> ScalarMatches(s.typ, v))
      && (forall n | 0 <= n < |s.allOf| :: RuleHolds(sat, s.allOf[n], v))
  }

  ghost predicate Settled(ctx: Context, sat: Meaning, s: Schema, v: JSON) {
    sat(s, v) <==> Keywords(ctx, sat, s, v)
  }

  ghost predicate IsMeaning(ctx: Context, sat: Meaning) {
    forall s, v {:trigger Settled(ctx, sat, s, v)} | s in ctx.schemas :: Settled(ctx, sat, s, v)
  }

  // ---- The validator is exact ----

  // The validator and a meaning say the same of v and s.
  ghost predicate Tells(ctx: Context, sat: Meaning, s: Schema, v: JSON)
    requires Acyclic(ctx) && s in ctx.schemas
  {
    Validate(ctx, s, v) == None <==> sat(s, v)
  }

  lemma {:induction false} FieldsTell(ctx: Context, sat: Meaning, s: Schema, v: JSON, keys: seq<string>)
    requires Acyclic(ctx) && s in ctx.schemas && s.Schema? && v.JObj? && forall k | k in keys :: k in v.fields
    requires forall k | k in v.fields && k in s.properties :: Tells(ctx, sat, s.properties[k], v.fields[k])
    ensures ValidateFields(ctx, s, v, keys) == None
       <==> forall i | 0 <= i < |keys| :: FieldHolds(sat, s, v.fields, keys[i])
    decreases |keys|
  {
    if keys != [] {
      var k := keys[0];
      if k in s.properties { assert Tells(ctx, sat, s.properties[k], v.fields[k]); }
      FieldsTell(ctx, sat, s, v, keys[1..]);
      assert forall i | 0 < i < |keys| :: keys[i] == keys[1..][i - 1];
    }
  }

  lemma {:induction false} EachVisited(ctx: Context, sat: Meaning, s: Schema, fields: map<string, JSON>)
    requires Acyclic(ctx) && s.Schema?
    ensures (forall i | 0 <= i < |ctx.visit(fields.Keys)| :: FieldHolds(sat, s, fields, ctx.visit(fields.Keys)[i]))
       <==> forall k | k in fields :: FieldHolds(sat, s, fields, k)
  {
    var keys := ctx.visit(fields.Keys);
    if forall i | 0 <= i < |keys| :: FieldHolds(sat, s, fields, keys[i]) {
      forall k | k in fields ensures FieldHolds(sat, s, fields, k) {
        assert k in keys;
      }
    }
  }

  lemma {:induction false} ItemsTell(ctx: Context, sat: Meaning, s: Schema, v: JSON, i: nat)
    requires Acyclic(ctx) && s in ctx.schemas && s.Schema? && v.JArr? && i <= |v.items|
    requires forall j | 0 <= j < |v.items| :: Tells(ctx, sat, s.items, v.items[j])
    ensures ValidateItems(ctx, s, v, i) == None <==> forall j | i <= j < |v.items| :: sat(s.items, v.items[j])
    decreases |v.items| - i
  {
    if i < |v.items| {
      assert Tells(ctx, sat, s.items, v.items[i]);
      ItemsTell(ctx, sat, s, v, i + 1);
    }
  }

  ghost predicate RuleTells(ctx: Context, sat: Meaning, rule: Rule, v: JSON)
    requires Acyclic(ctx) && rule.cond in ctx.schemas && rule.conseq in ctx.schemas
  {
    Tells(ctx, sat, rule.cond, v) && Tells(ctx, sat, rule.conseq, v)
  }

  lemma {:induction false} RulesTell(ctx: Context, sat: Meaning, s: Schema, v: JSON, n: nat)
    requires Acyclic(ctx) && s in ctx.schemas && s.Schema? && n <= |s.allOf|
    requires forall m | 0 <= m < |s.allOf| :: RuleTells(ctx, sat, s.allOf[m], v)
    ensures ValidateRules(ctx, s, v, n) == None <==> forall m | n <= m < |s.allOf| :: RuleHolds(sat, s.allOf[m], v)
    decreases |s.allOf| - n
  {
    if n < |s.allOf| {
      assert RuleTells(ctx, sat, s.allOf[n], v);
      RulesTell(ctx, sat, s, v, n + 1);
    }
  }

  // All that the validator asks about below s and v agrees with the meaning.
  ghost predicate TellsBelow(ctx: Context, sat: Meaning, s: Schema, v: JSON)
    requires Acyclic(ctx) && s in ctx.schemas && s.Schema?
  {
    && (var target := ResolveRef(ctx.root, s.ref); s.ref != "" && target.Some? ==> Tells(ctx, sat, target.value, v))
    && (forall m | 0 <= m < |s.allOf| :: RuleTells(ctx, sat, s.allOf[m], v))
    && (v.JObj? ==> forall k | k in v.fields && k in s.properties :: Tells(ctx, sat, s.properties[k], v.fields[k]))
    && (v.JArr? ==> forall j | 0 <= j < |v.items| :: Tells(ctx, sat, s.items, v.items[j]))
  }

  // One level: the validator reads the keywords off what it is told from below.
  lemma {:induction false} ValidateKeywords(ctx: Context, sat: Meaning, s: Schema, v: JSON)
    requires Acyclic(ctx) && s in ctx.schemas && s.Schema? && TellsBelow(ctx, sat, s, v)
    ensures Validate(ctx, s, v) == None <==> Keywords(ctx, sat, s, v)
  {
    if s.ref == "" {
      RulesTell(ctx, sat, s, v, 0);
      if IsObjectSchema(s) {
        if v.JObj? {
          FieldsTell(ctx, sat, s, v, ctx.visit(v.fields.Keys));
          EachVisited(ctx, sat, s, v.fields);
        }
      } else if IsArraySchema(s) && v.JArr? {
        ItemsTell(ctx, sat, s, v, 0);
      }
    }
  }

  // A set of values that holds the items and fields of its members.
  ghost predicate HoldsParts(scope: JSON -> bool, v: JSON) {
    && (v.JArr? ==> forall j | 0 <= j < |v.items| :: scope(v.items[j]))
    && (v.JObj? ==> forall k | k in v.fields :: scope(v.fields[k]))
  }

  // A meaning as far as a set of values goes.
  ghost predicate IsMeaningOn(ctx: Context, sat: Meaning, scope: JSON -> bool) {
    && (forall v {:trigger HoldsParts(scope, v)} | scope(v) :: HoldsParts(scope, v))
    && forall s, v {:trigger Settled(ctx, sat, s, v)} | s in ctx.schemas && scope(v) :: Settled(ctx, sat, s, v)
  }

  // Whatever satisfies the keyword equations on a set of values is what the validator decides there.
  lemma {:induction false} ValidateExactOn(ctx: Context, sat: Meaning, scope: JSON -> bool, s: Schema, v: JSON)
    requires Acyclic(ctx) && IsMeaningOn(ctx, sat, scope) && s in ctx.schemas && scope(v)
    ensures Validate(ctx, s, v) == None <==> sat(s, v)
    decreases v, ctx.rank(s)
  {
    assert Settled(ctx, sat, s, v) && HoldsParts(scope, v);
    if s.Schema? {
      var target := ResolveRef(ctx.root, s.ref);
      if s.ref != "" && target.Some? { ValidateExactOn(ctx, sat, scope, target.value, v); }
      forall m | 0 <= m < |s.allOf| ensures RuleTells(ctx, sat, s.allOf[m], v) {
        ValidateExactOn(ctx, sat, scope, s.allOf[m].cond, v);
        ValidateExactOn(ctx, sat, scope, s.allOf[m].conseq, v);
      }
      if v.JObj? {
        forall k | k in v.fields && k in s.properties ensures Tells(ctx, sat, s.properties[k], v.fields[k]) {
          ValidateExactOn(ctx, sat, scope, s.properties[k], v.fields[k]);
        }
      }
      if v.JArr? {
        forall j | 0 <= j < |v.items| ensures Tells(ctx, sat, s.items, v.items[j]) {
          ValidateExactOn(ctx, sat, scope, s.items, v.items[j]);
        }
      }
      ValidateKeywords(ctx, sat, s, v);
    }
  }

  // There is only one meaning, and the validator decides it: nil is returned exactly for the values
  // that satisfy the schema.
  lemma {:induction false} ValidateExact(ctx: Context, sat: Meaning, s: Schema, v: JSON)
    requires Acyclic(ctx) && IsMeaning(ctx, sat) && s in ctx.schemas
    ensures Validate(ctx, s, v) == None <==> sat(s, v)
  {
    ValidateExactOn(ctx, sat, (w: JSON) => true, s, v);
  }

  // The validator's own answers are such a meaning, so there is one.
  ghost function Accepts(ctx: Context): (sat: Meaning)
    requires Acyclic(ctx)
    ensures forall s, v | s in ctx.schemas :: Tells(ctx, sat, s, v)
  {
    (s: Schema, v: JSON) => s in ctx.schemas && Validate(ctx, s, v) == None
  }

  lemma {:induction false} AcceptsIsMeaning(ctx: Context)
    requires Acyclic(ctx)
    ensures IsMeaning(ctx, Accepts(ctx))
  {
    forall s, v | s in ctx.schemas ensures Settled(ctx, Accepts(ctx), s, v) {
      assert Tells(ctx, Accepts(ctx), s, v);
      if s.Schema? { ValidateKeywords(ctx, Accepts(ctx), s, v); }
    }
  }

  // Whatever order an object's keys are visited in, the same values are accepted.
  lemma {:induction false} KeyOrderIrrelevant(ctx: Context, visit: set<string> -> seq<string>, s: Schema, v: JSON)
    requires Acyclic(ctx) && s in ctx.schemas && forall ks, k :: k in visit(ks) <==> k in ks
    ensures Validate(ctx, s, v) == None <==> Validate(ctx.(visit := visit), s, v) == None
  {
    var other := ctx.(visit := visit);
    forall s | s in other.schemas && s.Schema? ensures EdgesStay(other, s) && EdgesFall(other, s) {
      assert EdgesStay(ctx, s) && EdgesFall(ctx, s);
    }
    AcceptsIsMeaning(ctx);
    var sat := Accepts(ctx);
    forall s, v | s in other.schemas ensures Settled(other, sat, s, v) {
      assert Settled(ctx, sat, s, v);
    }
    ValidateExact(other, sat, s, v);
  }

  // ---- Enumerations ----

  // Some enumerated value is written as v is.
  ghost predicate WrittenAsOne(ctx: Context, enums: seq<JSON>, v: JSON) {
    exists i | 0 <= i < |enums| :: ctx.render(enums[i]) == ctx.render(v)
  }

  lemma {:induction false} FieldsIgnoreEnum(ctx: Context, s: Schema, bare: Schema, v: JSON, keys: seq<string>)
    requires Acyclic(ctx) && s in ctx.schemas && bare in ctx.schemas && s.Schema? && bare == s.(enums := [])
    requires v.JObj? && forall k | k in keys :: k in v.fields
    ensures ValidateFields(ctx, s, v, keys) == ValidateFields(ctx, bare, v, keys)
    decreases |keys|
  {
    if keys != [] { FieldsIgnoreEnum(ctx, s, bare, v, keys[1..]); }
  }

  lemma {:induction false} ItemsIgnoreEnum(ctx: Context, s: Schema, bare: Schema, v: JSON, i: nat)
    requires Acyclic(ctx) && s in ctx.schemas && bare in ctx.schemas && s.Schema? && bare == s.(enums := [])
    requires v.JArr? && i <= |v.items|
    ensures ValidateItems(ctx, s, v, i) == ValidateItems(ctx, bare, v, i)
    decreases |v.items| - i
  {
    if i < |v.items| { ItemsIgnoreEnum(ctx, s, bare, v, i + 1); }
  }

  lemma {:induction false} RulesIgnoreEnum(ctx: Context, s: Schema, bare: Schema, v: JSON, n: nat)
    requires Acyclic(ctx) && s in ctx.schemas && bare in ctx.schemas && s.Schema? && bare == s.(enums := [])
    requires n <= |s.allOf|
    ensures ValidateRules(ctx, s, v, n) == ValidateRules(ctx, bare, v, n)
    decreases |s.allOf| - n
  {
    if n < |s.allOf| { RulesIgnoreEnum(ctx, s, bare, v, n + 1); }
  }

  // An enumeration of any length turns away exactly the values that are written as none of its own, and
  // has no say in what becomes of the others.
  lemma {:induction false} EnumerationExactly(ctx: Context, s: Schema, v: JSON)
    requires Acyclic(ctx) && s in ctx.schemas && s.Schema? && s.ref == "" && s.enums != []
    ensures !WrittenAsOne(ctx, s.enums, v) ==> Validate(ctx, s, v) == Some(NotInEnum)
    ensures WrittenAsOne(ctx, s.enums, v) && s.(enums := []) in ctx.schemas ==>
      Validate(ctx, s, v) == Validate(ctx, s.(enums := []), v)
  {
    var bare := s.(enums := []);
    if i :| 0 <= i < |s.enums| && ctx.render(s.enums[i]) == ctx.render(v) {
      assert s.enums[i] in s.enums;
      if bare in ctx.schemas {
        if v.JObj? { FieldsIgnoreEnum(ctx, s, bare, v, ctx.visit(v.fields.Keys)); }
        if v.JArr? { ItemsIgnoreEnum(ctx, s, bare, v, 0); }
        RulesIgnoreEnum(ctx, s, bare, v, 0);
      }
    }
  }

  // A scalar of the right type is turned away by a node without rules exactly for not being enumerated.
  lemma {:induction false} EnumeratedStringExactly(ctx: Context, s: Schema, text: string)
    requires Acyclic(ctx) && s in ctx.schemas && s.Schema? && s.ref == "" && s.enums != []
    requires s.typ == "string" && s.allOf == []
    ensures Validate(ctx, s, JStr(text)) == if WrittenAsOne(ctx, s.enums, JStr(text)) then None else Some(NotInEnum)
  {
    if i :| 0 <= i < |s.enums| && ctx.render(s.enums[i]) == ctx.render(JStr(text)) {
      assert s.enums[i] in s.enums;
    }
  }

  // ---- Which problem is reported ----

  // A node that asks nothing of sub-schemas.
  predicate Flat(s: Schema) {
    s.Schema? && s.ref == "" && s.enums == [] && s.properties == map[] && s.items == NoSchema && s.allOf == []
  }

  // k is the first required property that is missing.
  ghost predicate FirstToMiss(required: seq<string>, fields: map<string, JSON>, name: string) {
    exists k | 0 <= k < |required| ::
      required[k] == name && name !in fields && forall j | 0 <= j < k :: required[j] in fields
  }

  lemma {:induction false} FirstMissingIs(required: seq<string>, fields: map<string, JSON>)
    ensures var m := FirstMissing(required, fields); m.Some? ==> FirstToMiss(required, fields, m.value)
    decreases |required|
  {
    if required != [] && required[0] in fields {
      FirstMissingIs(required[1..], fields);
      var m := FirstMissing(required[1..], fields);
      if m.Some? {
        var k :| 0 <= k < |required| - 1 && required[1..][k] == m.value && forall j | 0 <= j < k :: required[1..][j] in fields;
        forall j | 0 <= j < k + 1 ensures required[j] in fields {
          if j > 0 { assert required[j] == required[1..][j - 1]; }
        }
        assert required[k + 1] == m.value;
      }
    }
  }

  lemma {:induction false} FlatFields(ctx: Context, s: Schema, v: JSON, keys: seq<string>)
    requires Acyclic(ctx) && s in ctx.schemas && Flat(s) && v.JObj? && forall k | k in keys :: k in v.fields
    ensures var p := ValidateFields(ctx, s, v, keys);
            if s.additional == Some(false) && keys != [] then p.Some? && p.value.UnexpectedProperty? && p.value.name in v.fields
            else p == None
    decreases |keys|
  {
    if keys != [] { FlatFields(ctx, s, v, keys[1..]); }
  }

  // An object is asked to be one, then for its required properties in order, then to have no others where they
  // are banned; an array to be one, then for its length.
  lemma {:induction false} FlatProblems(ctx: Context, s: Schema, v: JSON)
    requires Acyclic(ctx) && s in ctx.schemas && Flat(s)
    ensures s.typ == "object" || (s.typ == "" && s.required != []) ==>
      var p := Validate(ctx, s, v);
      if !v.JObj? then p == Some(NotAnObject)
      else if exists k | 0 <= k < |s.required| :: s.required[k] !in v.fields then
        p.Some? && p.value.MissingProperty? && FirstToMiss(s.required, v.fields, p.value.name)
      else if s.additional == Some(false) && v.fields != map[] then
        p.Some? && p.value.UnexpectedProperty? && p.value.name in v.fields
      else p == None
    ensures s.typ == "array" || (s.typ == "" && s.required == [] && s.minItems.Some?) ==>
      Validate(ctx, s, v) ==
        if !v.JArr? then Some(NotAnArray)
        else if s.minItems.Some? && |v.items| < s.minItems.value then Some(TooFewItems) else None
    ensures s.typ == "string" ==> Validate(ctx, s, v) == if v.JStr? then None else Some(WrongType)
    ensures s.typ == "number" ==> Validate(ctx, s, v) == if v.JNum? then None else Some(WrongType)
    ensures s.typ == "boolean" ==> Validate(ctx, s, v) == if v.JBool? then None else Some(WrongType)
  {
    if v.JObj? {
      FirstMissingIs(s.required, v.fields);
      var keys := ctx.visit(v.fields.Keys);
      assert forall k :: k in keys <==> k in v.fields;
      assert keys != [] ==> keys[0] in keys;
      FlatFields(ctx, s, v, keys);
      if v.fields != map[] {
        var k :| k in v.fields;
        assert k in keys;
      }
      assert (forall k | k in s.required :: k in v.fields) <==> forall k | 0 <= k < |s.required| :: s.required[k] in v.fields;
    }
  }

  // ---- JSON Schema, draft 2020-12 ----

  // The same keywords as the standard reads them: each on its own, none saying anything about values
  // of a type it is not for, and $ref beside the rest rather than instead of it. A whole number of any
  // size is an integer.
  ghost predicate StandardKeywords(ctx: Context, sat: Meaning, s: Schema, v: JSON) {
    if s == NoSchema then true
    else
      && (s.ref != "" ==> var target := ResolveRef(ctx.root, s.ref); target.Some? && sat(target.value, v))
      && (|s.enums| > 0 ==> v in s.enums)
      && (s.typ != "" ==> HasType(s.typ, v))
      && (v.JObj? ==> forall k | k in s.required :: k in v.fields)
      && (v.JObj? ==> forall k | k in v.fields :: FieldHolds(sat, s, v.fields, k))
      && (v.JArr? && s.minItems.Some? ==> |v.items| >= s.minItems.value)
      && (v.JArr? && s.items.Schema? ==> forall i | 0 <= i < |v.items| :: sat(s.items, v.items[i]))
      && (forall n | 0 <= n < |s.allOf| :: RuleHolds(sat, s.allOf[n], v))
  }

  predicate HasType(typ: string, v: JSON) {
    match v
    case JNull => typ == "null"
    case JBool(_) => typ == "boolean"
    case JNum(x) => typ == "number" || (typ == "integer" && IsWhole(x))
    case JStr(_) => typ == "string"
    case JArr(_) => typ == "array"
    case JObj(_) => typ == "object"
  }

  ghost predicate StandardSettled(ctx: Context, sat: Meaning, s: Schema, v: JSON) {
    sat(s, v) <==> StandardKeywords(ctx, sat, s, v)
  }

  ghost predicate IsStandardMeaning(ctx: Context, sat: Meaning) {
    forall s, v {:trigger StandardSettled(ctx, sat, s, v)} | s in ctx.schemas :: StandardSettled(ctx, sat, s, v)
  }

  // The standard's reading, evaluated.
  ghost predicate Conforms(ctx: Context, s: Schema, v: JSON)
    requires Acyclic(ctx) && s in ctx.schemas
    decreases v, ctx.rank(s)
  {
    s == NoSchema ||
    (&& (s.ref != "" ==> var target := ResolveRef(ctx.root, s.ref); target.Some? && Conforms(ctx, target.value, v))
     && (|s.enums| > 0 ==> v in s.enums)
     && (s.typ != "" ==> HasType(s.typ, v))
     && (v.JObj? ==> forall k | k in s.required :: k in v.fields)
     && (v.JObj? ==> forall k | k in v.fields ::
           if k in s.properties then Conforms(ctx, s.properties[k], v.fields[k]) else s.additional != Some(false))
     && (v.JArr? && s.minItems.Some? ==> |v.items| >= s.minItems.value)
     && (v.JArr? && s.items.Schema? ==> forall i | 0 <= i < |v.items| :: Conforms(ctx, s.items, v.items[i]))
     && (forall n | 0 <= n < |s.allOf| ::
           s.allOf[n].cond.Schema? && s.allOf[n].conseq.Schema? && Conforms(ctx, s.allOf[n].cond, v)
           ==> Conforms(ctx, s.allOf[n].conseq, v)))
  }

  // There is such a meaning.
  lemma {:induction false} ConformsIsStandard(ctx: Context)
    requires Acyclic(ctx)
    ensures IsStandardMeaning(ctx, (s, v) => s in ctx.schemas && Conforms(ctx, s, v))
  {
    var sat: Meaning := (s, v) => s in ctx.schemas && Conforms(ctx, s, v);
    forall s, v | s in ctx.schemas ensures StandardSettled(ctx, sat, s, v) {
      if s.Schema? {
        assert EdgesStay(ctx, s);
      }
    }
  }

  // Every whole number in a value, however deep, fits in 64 bits.
  predicate Fits64(v: JSON) {
    match v
    case JNum(x) => IsWhole(x) ==> In64Bits(x)
    case JArr(items) => forall j | 0 <= j < |items| :: Fits64(items[j])
    case JObj(fields) => forall k | k in fields :: Fits64(fields[k])
    case _ => true
  }

  // ---- Which schemas the two read alike ----

  // One schema node is read alike, whatever its sub-schemas accept.
  ghost predicate ReadAlike(ctx: Context, s: Schema) {
    forall sat: Meaning, v: JSON :: Keywords(ctx, sat, s, v) <==> StandardKeywords(ctx, sat, s, v)
  }

  // A type that both know, and all of whose values both count; or no type and no keyword that implies one.
  predicate TypedAlike(s: Schema)
    requires s.Schema?
  {
    || s.typ in {"object", "array", "string", "number", "boolean"}
    || (s.typ == "" && s.required == [] && s.properties == map[] && s.items == NoSchema && s.minItems == None
        && s.additional != Some(false))
  }

  const ALL_ACCEPTED: Meaning := (s, v) => true

  // Nothing but the enumeration or a sub-schema could turn v away.
  ghost predicate FitsShape(ctx: Context, s: Schema, v: JSON)
    requires s.Schema?
  {
    Keywords(ctx, ALL_ACCEPTED, s.(enums := []), v)
  }

  // No value of the right shape is written as an enumerated one without being enumerated.
  ghost predicate EnumeratedAlike(ctx: Context, s: Schema)
    requires s.Schema?
  {
    forall e, v | e in s.enums && ctx.render(e) == ctx.render(v) && FitsShape(ctx, s, v) :: v in s.enums
  }

  // A value on which the two part, with every sub-schema accepting everything.
  function PartingValue(s: Schema): JSON
    requires s.Schema?
  {
    if s.typ == "integer" then JNum(100000000000000000000.0)
    else if s.typ == "null" then JBool(true)
    else if s.typ == "" && !IsObjectSchema(s) && !IsArraySchema(s) then JObj(map["" := JNull])
    else JNull
  }

  lemma {:induction false} UnlikeTypesPart(ctx: Context, s: Schema)
    requires s.Schema? && s.ref == "" && s.enums == [] && !TypedAlike(s)
    ensures var v := PartingValue(s); Keywords(ctx, ALL_ACCEPTED, s, v) != StandardKeywords(ctx, ALL_ACCEPTED, s, v)
  {
    var v := PartingValue(s);
    assert forall n | 0 <= n < |s.allOf| :: RuleHolds(ALL_ACCEPTED, s.allOf[n], v);
    if s.typ == "integer" {
      assert 100000000000000000000.0.Floor == 100000000000000000000;
    } else if v.JObj? {
      assert "" in v.fields && !FieldHolds(ALL_ACCEPTED, s, v.fields, "");
    }
  }

  lemma {:induction false} AlikeTypesAgree(ctx: Context, sat: Meaning, s: Schema, v: JSON)
    requires s.Schema? && s.ref == "" && (TypedAlike(s) || (s.typ == "integer" && Fits64(v)))
    requires InEnum(ctx, s.enums, v) && FitsShape(ctx, s, v) ==> (|s.enums| > 0 ==> v in s.enums)
    ensures Keywords(ctx, sat, s, v) <==> StandardKeywords(ctx, sat, s, v)
  {
    if s.typ == "" && v.JObj? {
      forall k | k in v.fields ensures FieldHolds(sat, s, v.fields, k) {
      }
    }
    if Keywords(ctx, sat, s, v) { AcceptedFits(ctx, sat, s, v); }
  }

  lemma {:induction false} AcceptedFits(ctx: Context, sat: Meaning, s: Schema, v: JSON)
    requires s.Schema? && s.ref == "" && Keywords(ctx, sat, s, v)
    ensures FitsShape(ctx, s, v)
  {
    if v.JObj? && IsObjectSchema(s) {
      forall k | k in v.fields ensures FieldHolds(ALL_ACCEPTED, s.(enums := []), v.fields, k) {
        assert FieldHolds(sat, s, v.fields, k);
      }
    }
  }

  // A node without $ref, with a type of one of the two kinds or without an enumeration, is read alike
  // exactly when it is of one of the two kinds and its enumeration is written like nothing else of its shape.
  lemma {:induction false} ReadAlikeExactly(ctx: Context, s: Schema)
    requires s.Schema? && s.ref == "" && (s.enums == [] || TypedAlike(s))
    ensures ReadAlike(ctx, s) <==> TypedAlike(s) && EnumeratedAlike(ctx, s)
  {
    if !TypedAlike(s) {
      UnlikeTypesPart(ctx, s);
    } else if !EnumeratedAlike(ctx, s) {
      var v :| InEnum(ctx, s.enums, v) && FitsShape(ctx, s, v) && |s.enums| > 0 && v !in s.enums;
      FittingIsAccepted(ctx, s, v);
      assert !StandardKeywords(ctx, ALL_ACCEPTED, s, v);
    } else {
      forall sat: Meaning, v: JSON ensures Keywords(ctx, sat, s, v) <==> StandardKeywords(ctx, sat, s, v) {
        AlikeTypesAgree(ctx, sat, s, v);
      }
    }
  }

  lemma {:induction false} FittingIsAccepted(ctx: Context, s: Schema, v: JSON)
    requires s.Schema? && s.ref == "" && InEnum(ctx, s.enums, v) && FitsShape(ctx, s, v)
    ensures Keywords(ctx, ALL_ACCEPTED, s, v)
  {
    if v.JObj? && IsObjectSchema(s) {
      forall k | k in v.fields ensures FieldHolds(ALL_ACCEPTED, s, v.fields, k) {
        assert FieldHolds(ALL_ACCEPTED, s.(enums := []), v.fields, k);
      }
    }
  }

  // With any other enumeration too, it is enough to look at sub-schemas that accept everything.
  lemma {:induction false} ReadAlikeByShape(ctx: Context, s: Schema)
    requires s.Schema? && s.ref == ""
    ensures ReadAlike(ctx, s)
       <==> forall v :: Keywords(ctx, ALL_ACCEPTED, s, v) <==> StandardKeywords(ctx, ALL_ACCEPTED, s, v)
  {
    if forall v :: Keywords(ctx, ALL_ACCEPTED, s, v) <==> StandardKeywords(ctx, ALL_ACCEPTED, s, v) {
      forall sat: Meaning, v: JSON ensures Keywords(ctx, sat, s, v) <==> StandardKeywords(ctx, sat, s, v) {
        assert Keywords(ctx, ALL_ACCEPTED, s, v) <==> StandardKeywords(ctx, ALL_ACCEPTED, s, v);
        AlikeAtValue(ctx, sat, s, v);
      }
    }
  }

  lemma {:induction false} AlikeAtValue(ctx: Context, sat: Meaning, s: Schema, v: JSON)
    requires s.Schema? && s.ref == ""
    requires Keywords(ctx, ALL_ACCEPTED, s, v) <==> StandardKeywords(ctx, ALL_ACCEPTED, s, v)
    ensures Keywords(ctx, sat, s, v) <==> StandardKeywords(ctx, sat, s, v)
  {
    if Keywords(ctx, sat, s, v) {
      AcceptedFits(ctx, sat, s, v);
      FittingIsAccepted(ctx, s, v);
    }
    if StandardKeywords(ctx, sat, s, v) { StandardAcceptsMore(ctx, sat, s, v); }
    if v.JObj? && StandardKeywords(ctx, ALL_ACCEPTED, s, v) {
      forall k | k in v.fields ensures k in s.properties || s.additional != Some(false) {
        assert FieldHolds(ALL_ACCEPTED, s, v.fields, k);
      }
    }
  }

  lemma {:induction false} StandardAcceptsMore(ctx: Context, sat: Meaning, s: Schema, v: JSON)
    requires s.Schema? && s.ref == "" && StandardKeywords(ctx, sat, s, v)
    ensures StandardKeywords(ctx, ALL_ACCEPTED, s, v)
  {
    if v.JObj? {
      forall k | k in v.fields ensures FieldHolds(ALL_ACCEPTED, s, v.fields, k) {
        assert FieldHolds(sat, s, v.fields, k);
      }
    }
  }

  // The keywords beside a $ref, which the validator passes over, say nothing either.
  predicate SiblingsIdle(s: Schema, target: Schema)
    requires s.Schema?
  {
    && s.typ == "" && s.enums == [] && s.required == [] && s.properties == map[] && s.items == NoSchema
    && (s.minItems.Some? ==> s.minItems.value <= 0) && s.additional != Some(false)
    && forall n | 0 <= n < |s.allOf| ::
         s.allOf[n].cond.Schema? && s.allOf[n].conseq.Schema? ==>
           s.allOf[n].conseq == s.allOf[n].cond || s.allOf[n].conseq == target
  }

  // Larger than every number among some values.
  function Above(vs: seq<JSON>): (x: real)
    ensures forall v | v in vs && v.JNum? :: v.x < x
  {
    if vs == [] then 0.0
    else
      var x := Above(vs[1..]);
      if vs[0].JNum? && vs[0].x >= x then vs[0].x + 1.0 else x
  }

  lemma {:induction false} SiblingPart(ctx: Context, s: Schema, target: Schema) returns (sat: Meaning, v: JSON)
    requires s.Schema? && s.ref != "" && ResolveRef(ctx.root, s.ref) == Some(target) && !SiblingsIdle(s, target)
    ensures sat(target, v) && !StandardKeywords(ctx, sat, s, v)
  {
    sat, v := ALL_ACCEPTED, JNull;
    if s.typ != "" {
      v := if s.typ == "null" then JBool(true) else JNull;
    } else if s.enums != [] {
      v := JNum(Above(s.enums));
    } else if s.required != [] {
      v := JObj(map[]);
      assert s.required[0] in s.required && s.required[0] !in v.fields;
    } else if s.properties != map[] {
      var k :| k in s.properties;
      sat, v := (t, w) => w != JNull, JObj(map[k := JNull]);
      assert k in v.fields && !FieldHolds(sat, s, v.fields, k);
    } else if s.additional == Some(false) {
      v := JObj(map["" := JNull]);
      assert "" in v.fields && !FieldHolds(sat, s, v.fields, "");
    } else if s.items != NoSchema {
      sat, v := (t, w) => w != JNull, JArr([JNull]);
      assert !sat(s.items, v.items[0]);
    } else if s.minItems.Some? && s.minItems.value > 0 {
      v := JArr([]);
    } else {
      var n :| 0 <= n < |s.allOf| && s.allOf[n].cond.Schema? && s.allOf[n].conseq.Schema?
        && s.allOf[n].conseq != s.allOf[n].cond && s.allOf[n].conseq != target;
      var conseq := s.allOf[n].conseq;
      sat := (t, w) => t != conseq;
      assert !RuleHolds(sat, s.allOf[n], v);
    }
  }

  // A node with a $ref that can be followed is read alike exactly when the keywords beside it say nothing.
  lemma {:induction false} RefReadAlikeExactly(ctx: Context, s: Schema, target: Schema)
    requires s.Schema? && s.ref != "" && ResolveRef(ctx.root, s.ref) == Some(target)
    ensures ReadAlike(ctx, s) <==> SiblingsIdle(s, target)
  {
    if SiblingsIdle(s, target) {
      forall sat: Meaning, v: JSON ensures Keywords(ctx, sat, s, v) <==> StandardKeywords(ctx, sat, s, v) {
        IdleSiblingsAgree(ctx, sat, s, target, v);
      }
    } else {
      var sat, v := SiblingPart(ctx, s, target);
      assert Keywords(ctx, sat, s, v) != StandardKeywords(ctx, sat, s, v);
    }
  }

  lemma {:induction false} IdleSiblingsAgree(ctx: Context, sat: Meaning, s: Schema, target: Schema, v: JSON)
    requires s.Schema? && s.ref != "" && ResolveRef(ctx.root, s.ref) == Some(target) && SiblingsIdle(s, target)
    ensures Keywords(ctx, sat, s, v) <==> StandardKeywords(ctx, sat, s, v)
  {
    if v.JObj? {
      forall k | k in v.fields ensures FieldHolds(sat, s, v.fields, k) {
      }
    }
    if sat(target, v) {
      forall n | 0 <= n < |s.allOf| ensures RuleHolds(sat, s.allOf[n], v) {
      }
    }
  }

  // A node read alike, but for the whole numbers beyond 64 bits if its type is integer.
  ghost predicate Plain(ctx: Context, s: Schema)
    requires s.Schema?
  {
    if s.ref != "" then var target := ResolveRef(ctx.root, s.ref); target.Some? ==> SiblingsIdle(s, target.value)
    else (TypedAlike(s) || s.typ == "integer") && EnumeratedAlike(ctx, s)
  }

  lemma {:induction false} PlainKeywords(ctx: Context, sat: Meaning, s: Schema, v: JSON)
    requires s.Schema? && Plain(ctx, s) && (s.typ == "integer" ==> Fits64(v))
    ensures Keywords(ctx, sat, s, v) <==> StandardKeywords(ctx, sat, s, v)
  {
    if s.ref == "" {
      AlikeTypesAgree(ctx, sat, s, v);
    } else {
      var target := ResolveRef(ctx.root, s.ref);
      if target.Some? { IdleSiblingsAgree(ctx, sat, s, target.value, v); }
    }
  }

  lemma {:induction false} PlainIsReadAlike(ctx: Context, s: Schema)
    requires s.Schema? && s.typ != "integer" && Plain(ctx, s)
    ensures ReadAlike(ctx, s)
  {
    forall sat: Meaning, v: JSON ensures Keywords(ctx, sat, s, v) <==> StandardKeywords(ctx, sat, s, v) {
      PlainKeywords(ctx, sat, s, v);
    }
  }

  // On plain schemas the validator accepts exactly the values that the standard does, among those
  // whose whole numbers fit in 64 bits.
  lemma {:induction false} AgreesWithStandard(ctx: Context, sat: Meaning, s: Schema, v: JSON)
    requires Acyclic(ctx) && s in ctx.schemas && IsStandardMeaning(ctx, sat) && Fits64(v)
    requires forall t | t in ctx.schemas && t.Schema? :: Plain(ctx, t)
    ensures Validate(ctx, s, v) == None <==> sat(s, v)
  {
    forall t, w | t in ctx.schemas && Fits64(w) ensures Settled(ctx, sat, t, w) {
      assert StandardSettled(ctx, sat, t, w);
      if t.Schema? { PlainKeywords(ctx, sat, t, w); }
    }
    ValidateExactOn(ctx, sat, Fits64, s, v);
  }

  // And among all values where no schema asks for an integer.
  lemma {:induction false} AgreesWithoutIntegers(ctx: Context, sat: Meaning, s: Schema, v: JSON)
    requires Acyclic(ctx) && s in ctx.schemas && IsStandardMeaning(ctx, sat)
    requires forall t | t in ctx.schemas && t.Schema? :: Plain(ctx, t) && t.typ != "integer"
    ensures Validate(ctx, s, v) == None <==> sat(s, v)
  {
    forall t, w | t in ctx.schemas ensures Settled(ctx, sat, t, w) {
      assert StandardSettled(ctx, sat, t, w);
      if t.Schema? { PlainKeywords(ctx, sat, t, w); }
    }
    ValidateExact(ctx, sat, s, v);
  }

  const INTEGER_SCHEMA := Schema("integer", [], map[], NoSchema, [], None, None, "", map[], [])

  // The two read the plain integer schema alike at every value but the whole numbers beyond 64 bits:
  // those the standard accepts and the validator does not.
  lemma {:induction false} IntegerReadAlikeExactly(ctx: Context, sat: Meaning, v: JSON)
    requires Acyclic(ctx) && INTEGER_SCHEMA in ctx.schemas
    ensures (Validate(ctx, INTEGER_SCHEMA, v) == None <==> StandardKeywords(ctx, sat, INTEGER_SCHEMA, v))
       <==> !(v.JNum? && IsWhole(v.x) && !In64Bits(v.x))
  {
    assert Validate(ctx, INTEGER_SCHEMA, v) == None <==> ScalarMatches("integer", v);
  }

  // The integers of the validator, by number.
  lemma {:induction false} IntegersExactly(ctx: Context, x: real)
    requires Acyclic(ctx) && INTEGER_SCHEMA in ctx.schemas
    ensures Validate(ctx, INTEGER_SCHEMA, JNum(x)) == None
       <==> x == x.Floor as real && -9223372036854775808.0 <= x < 9223372036854775808.0
  {
    assert Validate(ctx, INTEGER_SCHEMA, JNum(x)) == None <==> ScalarMatches("integer", JNum(x));
  }

  // A $ref is followed into the root's definitions by its name alone.
  lemma {:induction false} ReferenceExactly(ctx: Context, s: Schema, v: JSON, name: string)
    requires Acyclic(ctx) && s in ctx.schemas && s.Schema? && s.ref == "#/$defs/" + name
    ensures ctx.root.Schema? && name in ctx.root.defs ==>
      ctx.root.defs[name] in ctx.schemas && Validate(ctx, s, v) == Validate(ctx, ctx.root.defs[name], v)
    ensures !(ctx.root.Schema? && name in ctx.root.defs) ==> Validate(ctx, s, v) == Some(BadReference)
  {
    assert s.ref[|"#/$defs/"|..] == name;
    assert EdgesStay(ctx, s);
  }

  // One of any other form is a bad reference.
  lemma {:induction false} OtherReferencesAreBad(ctx: Context, s: Schema, v: JSON)
    requires Acyclic(ctx) && s in ctx.schemas && s.Schema? && s.ref != "" && forall name :: s.ref != "#/$defs/" + name
    ensures Validate(ctx, s, v) == Some(BadReference)
  {
    PrefixExactly(s.ref, "#/$defs/");
  }

  lemma {:induction false} PrefixExactly(s: string, prefix: string)
    ensures HasPrefix(s, prefix) <==> exists t :: s == prefix + t
  {
    if HasPrefix(s, prefix) { assert s == prefix + s[|prefix|..]; }
  }

  lemma {:induction false} LargeIntegerDiffers(ctx: Context, sat: Meaning)
    requires Acyclic(ctx) && INTEGER_SCHEMA in ctx.schemas
    ensures var v := JNum(100000000000000000000.0);
            Validate(ctx, INTEGER_SCHEMA, v) != None && StandardKeywords(ctx, sat, INTEGER_SCHEMA, v)
  {
    var x := 100000000000000000000.0;
    assert x.Floor == 100000000000000000000;
    IntegerReadAlikeExactly(ctx, sat, JNum(x));
  }

  // Where a schema is not plain they can differ: without a type, required turns away every value
  // that is not an object, and the standard turns away none of them.
  lemma {:induction false} UntypedRequiredDiffers(ctx: Context, sat: Meaning, s: Schema, v: JSON)
    requires Acyclic(ctx) && s in ctx.schemas && !v.JObj?
    requires s == Schema("", ["name"], map[], NoSchema, [], None, None, "", map[], [])
    ensures Validate(ctx, s, v) == Some(NotAnObject) && StandardKeywords(ctx, sat, s, v)
  {
  }
}
