/** Audiences described by a rule, which is compiled to a WHERE clause and evaluated with SQL's three truth values. */
module Segments {
  import opened Prelude
  import opened Texts

  const MAX_CONDITIONS := 25
  /** "tag" and "trait:" */
  const TAG: Text := [116, 97, 103]
  const TRAIT: Text := [116, 114, 97, 105, 116, 58]
  /** "active" */
  const ACTIVE: Text := [97, 99, 116, 105, 118, 101]

  const PERCENT: Unit := 37
  const UNDERSCORE: Unit := 95
  const BACKSLASH: Unit := 92

  // ----- Rows ------------------------------------------------------------------------------------------

  datatype Scalar = Str(text: Text) | Time(ms: int)

  /** `metadata` gives what `->>` reads: text, or nothing for a missing key and for a JSON null. */
  datatype Contact = Contact(id: nat, workspace: nat, client: Option<nat>, email: Text, name: Option<Text>,
                             status: Text, stage: Text, createdAt: int, updatedAt: int,
                             tags: set<Text>, metadata: map<Text, Option<Text>>)

  // ----- Rules ------------------------------------------------------------------------------------------

  datatype Field = Email | Name | StatusField | Stage | CreatedAt | UpdatedAt

  datatype Op = Equal | NotEqual | Contains | Exists | NotExists | Below | Above | UnknownOp

  /** `value` is the parameter as it is bound; `asText` is its text, empty when there is none. */
  datatype Condition = Condition(field: Text, op: Op, value: Option<Scalar>, asText: Text)

  datatype Match = All | Any | OtherMatch

  datatype Filter = Filter(match_: Option<Match>, conditions: seq<Condition>)

  // ----- Columns ----------------------------------------------------------------------------------------

  datatype Column = Of(field: Field) | TraitOf(key: Text) | Constant(text: Text)

  function FieldName(f: Field): Text {
    match f
    case Email => [101, 109, 97, 105, 108]
    case Name => [110, 97, 109, 101]
    case StatusField => [115, 116, 97, 116, 117, 115]
    case Stage => [115, 116, 97, 103, 101]
    case CreatedAt => [99, 114, 101, 97, 116, 101, 100, 95, 97, 116]
    case UpdatedAt => [117, 112, 100, 97, 116, 101, 100, 95, 97, 116]
  }

  /** Names that every object of the language inherits and that can be called without a receiver. */
  datatype Inherited = ToString | Constructor | IsPrototypeOf

  function InheritedName(i: Inherited): Text {
    match i
    case ToString => [116, 111, 83, 116, 114, 105, 110, 103]
    case Constructor => [99, 111, 110, 115, 116, 114, 117, 99, 116, 111, 114]
    case IsPrototypeOf => [105, 115, 80, 114, 111, 116, 111, 116, 121, 112, 101, 79, 102]
  }

  /** What calling an inherited function yields: "[object Undefined]", "{}" or "false". */
  function InheritedText(i: Inherited): Text {
    match i
    case ToString => [91, 111, 98, 106, 101, 99, 116, 32, 85, 110, 100, 101, 102, 105, 110, 101, 100, 93]
    case Constructor => [123, 125]
    case IsPrototypeOf => [102, 97, 108, 115, 101]
  }

  predicate IsTraitUnit(c: Unit) {
    IsDigit(c) || 65 <= c <= 90 || 97 <= c <= 122 || c == UNDERSCORE || c == 46 || c == 45
  }

  predicate IsTraitKey(k: Text) {
    1 <= |k| <= 64 && forall i :: 0 <= i < |k| ==> IsTraitUnit(k[i])
  }

  function LookUp(name: Text): Option<Column> {
    if name == FieldName(Email) then Some(Of(Email))
    else if name == FieldName(Name) then Some(Of(Name))
    else if name == FieldName(StatusField) then Some(Of(StatusField))
    else if name == FieldName(Stage) then Some(Of(Stage))
    else if name == FieldName(CreatedAt) then Some(Of(CreatedAt))
    else if name == FieldName(UpdatedAt) then Some(Of(UpdatedAt))
    else if name == InheritedName(ToString) then Some(Constant(InheritedText(ToString)))
    else if name == InheritedName(Constructor) then Some(Constant(InheritedText(Constructor)))
    else if name == InheritedName(IsPrototypeOf) then Some(Constant(InheritedText(IsPrototypeOf)))
    else None
  }

  function ColumnFor(name: Text): Option<Column> {
    if TRAIT <= name then
      if IsTraitKey(name[|TRAIT|..]) then Some(TraitOf(name[|TRAIT|..])) else None
    else LookUp(name)
  }

  function Read(c: Contact, col: Column): Option<Scalar> {
    match col
    case Of(Email) => Some(Str(c.email))
    case Of(Name) => if c.name.Some? then Some(Str(c.name.value)) else None
    case Of(StatusField) => Some(Str(c.status))
    case Of(Stage) => Some(Str(c.stage))
    case Of(CreatedAt) => Some(Time(c.createdAt))
    case Of(UpdatedAt) => Some(Time(c.updatedAt))
    case TraitOf(key) => if key in c.metadata && c.metadata[key].Some? then Some(Str(c.metadata[key].value)) else None
    case Constant(t) => Some(Str(t))
  }

  // ----- Patterns ----------------------------------------------------------------------------------------

  /** LIKE: `%` stands for any text, `_` for any unit, and a backslash makes the next unit plain. */
  predicate Like(pattern: Text, s: Text)
    decreases |pattern|, |s|
  {
    if pattern == [] then s == []
    else if pattern[0] == PERCENT then Like(pattern[1..], s) || (s != [] && Like(pattern, s[1..]))
    else if pattern[0] == BACKSLASH && |pattern| >= 2 then
      s != [] && s[0] == pattern[1] && Like(pattern[2..], s[1..])
    else s != [] && (pattern[0] == UNDERSCORE || s[0] == pattern[0]) && Like(pattern[1..], s[1..])
  }

  function Around(value: Text): Text {
    [PERCENT] + value + [PERCENT]
  }

  predicate ILike(value: Text, s: Text) {
    Like(Lower(Around(value)), Lower(s))
  }

  // ----- Clauses and their truth -------------------------------------------------------------------------

  datatype Truth = Yes | No | Unknown

  datatype Clause =
    | Eq(col: Column, value: Option<Scalar>)
    | DistinctFrom(col: Column, value: Option<Scalar>)
    | ILikeAround(col: Column, part: Text)
    | NotNull(col: Column)
    | IsNull(col: Column)
    | Less(col: Column, value: Option<Scalar>)
    | Greater(col: Column, value: Option<Scalar>)
    | HasTag(tag: Text)
    | Not(clause: Clause)
    | AllOf(clauses: seq<Clause>)
    | AnyOf(clauses: seq<Clause>)
    | InWorkspace(workspace: nat)
    | OfClient(client: nat)
    | NoClient

  function Truly(b: bool): Truth {
    if b then Yes else No
  }

  /** The collation of the database, as a strict order on texts. */
  type Collation = (Text, Text) -> bool

  predicate Comes(before: Scalar, after: Scalar, collation: Collation) {
    match (before, after)
    case (Str(a), Str(b)) => collation(a, b)
    case (Time(a), Time(b)) => a < b
    case _ => false
  }

  function Negation(t: Truth): Truth {
    match t
    case Yes => No
    case No => Yes
    case Unknown => Unknown
  }

  function Conjunction(ts: seq<Truth>): Truth {
    if No in ts then No else if Unknown in ts then Unknown else Yes
  }

  function Disjunction(ts: seq<Truth>): Truth {
    if Yes in ts then Yes else if Unknown in ts then Unknown else No
  }

  function Eval(k: Clause, c: Contact, collation: Collation): Truth {
    match k
    case Eq(col, v) =>
      var x := Read(c, col);
      if x.None? || v.None? then Unknown else Truly(x == v)
    case DistinctFrom(col, v) => Truly(Read(c, col) != v)
    case ILikeAround(col, v) =>
      var x := Read(c, col);
      if x.None? then Unknown else Truly(x.value.Str? && ILike(v, x.value.text))
    case NotNull(col) => Truly(Read(c, col).Some?)
    case IsNull(col) => Truly(Read(c, col).None?)
    case Less(col, v) =>
      var x := Read(c, col);
      if x.None? || v.None? then Unknown else Truly(Comes(x.value, v.value, collation))
    case Greater(col, v) =>
      var x := Read(c, col);
      if x.None? || v.None? then Unknown else Truly(Comes(v.value, x.value, collation))
    case HasTag(tag) => Truly(tag in c.tags)
    case Not(inner) => Negation(Eval(inner, c, collation))
    case AllOf(ks) => Conjunction(seq(|ks|, i requires 0 <= i < |ks| => Eval(ks[i], c, collation)))
    case AnyOf(ks) => Disjunction(seq(|ks|, i requires 0 <= i < |ks| => Eval(ks[i], c, collation)))
    case InWorkspace(w) => Truly(c.workspace == w)
    case OfClient(s) => if c.client.None? then Unknown else Truly(c.client == Some(s))
    case NoClient => Truly(c.client.None?)
  }

  /** A row is selected when its clause is true; unknown does not select. */
  predicate Selects(k: Clause, c: Contact, collation: Collation) {
    Eval(k, c, collation) == Yes
  }

  // ----- Compiling ---------------------------------------------------------------------------------------------

  function ConditionClause(c: Condition): Result<Clause, string> {
    if c.field == TAG then
      match c.op
      case Equal => Success(HasTag(c.asText))
      case Contains => Success(HasTag(c.asText))
      case NotEqual => Success(Not(HasTag(c.asText)))
      case _ => Failure("operator is not valid for tags")
    else
      match ColumnFor(c.field)
      case None => Failure("unknown field or invalid trait key")
      case Some(col) =>
        match c.op
        case Equal => Success(Eq(col, c.value))
        case NotEqual => Success(DistinctFrom(col, c.value))
        case Contains => Success(ILikeAround(col, c.asText))
        case Exists => Success(NotNull(col))
        case NotExists => Success(IsNull(col))
        case Below => Success(Less(col, c.value))
        case Above => Success(Greater(col, c.value))
        case UnknownOp => Failure("unknown operator")
  }

  predicate Compiles(c: Condition) {
    ConditionClause(c).Success?
  }

  predicate ValidFilter(f: Filter) {
    && 0 < |f.conditions| <= MAX_CONDITIONS
    && f.match_ != Some(OtherMatch)
    && forall i :: 0 <= i < |f.conditions| ==> Compiles(f.conditions[i])
  }

  function Clauses(cs: seq<Condition>): (r: seq<Clause>)
    requires forall i :: 0 <= i < |cs| ==> Compiles(cs[i])
    ensures |r| == |cs|
    ensures forall i :: 0 <= i < |cs| ==> Compiles(cs[i]) && r[i] == ConditionClause(cs[i]).value
  {
    seq(|cs|, i requires 0 <= i < |cs| && Compiles(cs[i]) => ConditionClause(cs[i]).value)
  }

  /** The whole clause; a rule that does not validate throws instead of widening. */
  function SegmentWhere(f: Filter, workspace: nat, client: Option<nat>): (r: Result<Clause, string>)
    ensures r.Success? <==> ValidFilter(f)
  {
    if !ValidFilter(f) then Failure("invalid segment rule")
    else
      var parts := Clauses(f.conditions);
      var rule := if f.match_ == Some(Any) then AnyOf(parts) else AllOf(parts);
      var scope := AllOf([InWorkspace(workspace), if client.Some? then OfClient(client.value) else NoClient]);
      Success(AllOf([scope, Eq(Of(StatusField), Some(Str(ACTIVE))), rule]))
  }

  // ----- The plain reading of a rule ----------------------------------------------------------------------------

  /** What a condition says about a contact, in two values. */
  predicate Holds(c: Condition, x: Contact, collation: Collation) {
    if c.field == TAG then (if c.op == NotEqual then c.asText !in x.tags else c.asText in x.tags)
    else
      match ColumnFor(c.field)
      case None => false
      case Some(col) =>
        var v := Read(x, col);
        match c.op
        case Equal => v.Some? && v == c.value
        case NotEqual => v != c.value
        case Contains => v.Some? && v.value.Str? && ILike(c.asText, v.value.text)
        case Exists => v.Some?
        case NotExists => v.None?
        case Below => v.Some? && c.value.Some? && Comes(v.value, c.value.value, collation)
        case Above => v.Some? && c.value.Some? && Comes(c.value.value, v.value, collation)
        case UnknownOp => false
  }

  predicate RuleHolds(f: Filter, x: Contact, collation: Collation) {
    if f.match_ == Some(Any) then exists i :: 0 <= i < |f.conditions| && Holds(f.conditions[i], x, collation)
    else forall i :: 0 <= i < |f.conditions| ==> Holds(f.conditions[i], x, collation)
  }

  lemma TagConditionSelects(c: Condition, x: Contact, collation: Collation)
    requires c.field == TAG && Compiles(c)
    ensures Selects(ConditionClause(c).value, x, collation) <==> Holds(c, x, collation)
  {
    var k := ConditionClause(c).value;
    var present := Eval(HasTag(c.asText), x, collation);
    assert present == Truly(c.asText in x.tags);
    assert Eval(k, x, collation) == if c.op == NotEqual then Negation(present) else present;
  }

  lemma ColumnConditionSelects(c: Condition, col: Column, x: Contact, collation: Collation)
    requires c.field != TAG && ColumnFor(c.field) == Some(col) && Compiles(c)
    ensures Selects(ConditionClause(c).value, x, collation) <==> Holds(c, x, collation)
  {
    var v := Read(x, col);
    assert c.op == Equal && v.Some? && c.value.Some? ==>
             Eval(ConditionClause(c).value, x, collation) == Truly(v == c.value);
  }

  lemma ConditionSelects(c: Condition, x: Contact, collation: Collation)
    requires Compiles(c)
    ensures Selects(ConditionClause(c).value, x, collation) <==> Holds(c, x, collation)
  {
    if c.field == TAG {
      TagConditionSelects(c, x, collation);
    } else {
      ColumnConditionSelects(c, ColumnFor(c.field).value, x, collation);
    }
  }

  lemma AllOfSelects(ks: seq<Clause>, x: Contact, collation: Collation)
    ensures Selects(AllOf(ks), x, collation) <==> forall i :: 0 <= i < |ks| ==> Selects(ks[i], x, collation)
  {
    var ts := seq(|ks|, i requires 0 <= i < |ks| => Eval(ks[i], x, collation));
    assert Eval(AllOf(ks), x, collation) == Conjunction(ts);
    assert forall i :: 0 <= i < |ks| ==> ts[i] == Eval(ks[i], x, collation);
    if forall i :: 0 <= i < |ks| ==> Selects(ks[i], x, collation) {
      assert No !in ts && Unknown !in ts;
    } else {
      var i :| 0 <= i < |ks| && !Selects(ks[i], x, collation);
      assert ts[i] in ts;
    }
  }

  lemma AnyOfSelects(ks: seq<Clause>, x: Contact, collation: Collation)
    ensures Selects(AnyOf(ks), x, collation) <==> exists i :: 0 <= i < |ks| && Selects(ks[i], x, collation)
  {
    var ts := seq(|ks|, i requires 0 <= i < |ks| => Eval(ks[i], x, collation));
    assert Eval(AnyOf(ks), x, collation) == Disjunction(ts);
    if i :| 0 <= i < |ks| && Selects(ks[i], x, collation) {
      assert ts[i] == Yes;
    }
    if Yes in ts {
      var i :| 0 <= i < |ts| && ts[i] == Yes;
      assert Selects(ks[i], x, collation);
    }
  }

  lemma RuleSelects(f: Filter, x: Contact, collation: Collation)
    requires ValidFilter(f)
    ensures var parts := Clauses(f.conditions);
            Selects(if f.match_ == Some(Any) then AnyOf(parts) else AllOf(parts), x, collation)
            <==> RuleHolds(f, x, collation)
  {
    var parts := Clauses(f.conditions);
    forall i | 0 <= i < |parts|
      ensures Selects(parts[i], x, collation) <==> Holds(f.conditions[i], x, collation)
    {
      ConditionSelects(f.conditions[i], x, collation);
    }
    AllOfSelects(parts, x, collation);
    AnyOfSelects(parts, x, collation);
    if f.match_ == Some(Any) {
      if i :| 0 <= i < |parts| && Selects(parts[i], x, collation) {
        assert Holds(f.conditions[i], x, collation);
      }
      if i :| 0 <= i < |f.conditions| && Holds(f.conditions[i], x, collation) {
        assert Selects(parts[i], x, collation);
      }
    } else if RuleHolds(f, x, collation) {
      assert forall i :: 0 <= i < |parts| ==> Selects(parts[i], x, collation);
    } else {
      var i :| 0 <= i < |f.conditions| && !Holds(f.conditions[i], x, collation);
      assert !Selects(parts[i], x, collation);
    }
  }

  /**
   * A contact is reached exactly when the rule is valid and describes it, and it is an active contact of this very
   * workspace and client. So nothing, a faulty rule least of all, widens into everybody.
   */
  lemma WhereMeansRule(f: Filter, workspace: nat, client: Option<nat>, x: Contact, collation: Collation)
    ensures var r := SegmentWhere(f, workspace, client);
            r.Success? && Selects(r.value, x, collation)
            <==> ValidFilter(f) && x.workspace == workspace && x.client == client && x.status == ACTIVE
                 && RuleHolds(f, x, collation)
  {
    if ValidFilter(f) {
      ValidRuleSelects(f, workspace, client, x, collation);
    }
  }

  lemma ValidRuleSelects(f: Filter, workspace: nat, client: Option<nat>, x: Contact, collation: Collation)
    requires ValidFilter(f)
    ensures Selects(SegmentWhere(f, workspace, client).value, x, collation)
            <==> x.workspace == workspace && x.client == client && x.status == ACTIVE && RuleHolds(f, x, collation)
  {
    var parts := Clauses(f.conditions);
    var rule := if f.match_ == Some(Any) then AnyOf(parts) else AllOf(parts);
    var owner := if client.Some? then OfClient(client.value) else NoClient;
    var scope := AllOf([InWorkspace(workspace), owner]);
    var active := Eq(Of(StatusField), Some(Str(ACTIVE)));
    RuleSelects(f, x, collation);
    AllOfSelects([InWorkspace(workspace), owner], x, collation);
    assert Selects(scope, x, collation) <==> x.workspace == workspace && x.client == client by {
      assert [InWorkspace(workspace), owner][0] == InWorkspace(workspace);
      assert [InWorkspace(workspace), owner][1] == owner;
    }
    var all := [scope, active, rule];
    AllOfSelects(all, x, collation);
    assert all[0] == scope && all[1] == active && all[2] == rule;
  }

  // ----- Equal and not equal ------------------------------------------------------------------------------------

  /** For a value that is not null, every contact is on exactly one side; for null, nobody is equal. */
  lemma EqualAndNotEqualSplit(field: Text, value: Option<Scalar>, asText: Text, x: Contact, collation: Collation)
    requires Compiles(Condition(field, Equal, value, asText))
    ensures var eq, neq := Condition(field, Equal, value, asText), Condition(field, NotEqual, value, asText);
            && Compiles(neq)
            && (field == TAG || value.Some? ==>
                  (Selects(ConditionClause(neq).value, x, collation)
                   <==> !Selects(ConditionClause(eq).value, x, collation)))
            && (field != TAG && value.None? ==> !Selects(ConditionClause(eq).value, x, collation))
  {
  }

  // ----- Which fields are accepted -------------------------------------------------------------------------------

  lemma FieldIsNoTrait(f: Field)
    ensures !(TRAIT <= FieldName(f))
  {
    assert |FieldName(f)| >= |TRAIT| ==> FieldName(f)[0] != TRAIT[0];
  }

  lemma InheritedIsNoTrait(i: Inherited)
    ensures !(TRAIT <= InheritedName(i))
  {
    assert InheritedName(i)[1] != TRAIT[1];
  }

  /** A rule may name the listed fields, well-formed traits, tags, and three names it was not meant to. */
  lemma FieldsAccepted(name: Text)
    ensures ColumnFor(name).Some? <==>
              || (exists f :: name == FieldName(f))
              || (TRAIT <= name && IsTraitKey(name[|TRAIT|..]))
              || (exists i :: name == InheritedName(i))
  {
    forall f
      ensures !(TRAIT <= FieldName(f))
    {
      FieldIsNoTrait(f);
    }
    forall i
      ensures !(TRAIT <= InheritedName(i))
    {
      InheritedIsNoTrait(i);
    }
  }

  /** Which conditions compile: known operators on accepted fields; tags are only had, not had, or contained. */
  lemma ConditionAccepted(c: Condition)
    ensures Compiles(c) <==>
              if c.field == TAG then c.op in {Equal, NotEqual, Contains}
              else
                && c.op != UnknownOp
                && (|| (exists f :: c.field == FieldName(f))
                    || (TRAIT <= c.field && IsTraitKey(c.field[|TRAIT|..]))
                    || (exists i :: c.field == InheritedName(i)))
  {
    FieldsAccepted(c.field);
  }

  // ----- What `contains` finds -------------------------------------------------------------------------------------

  predicate IsMeta(c: Unit) {
    c == PERCENT || c == UNDERSCORE || c == BACKSLASH
  }

  predicate HasMeta(v: Text) {
    exists i :: 0 <= i < |v| && IsMeta(v[i])
  }

  predicate StandsAt(v: Text, s: Text, k: nat) {
    k + |v| <= |s| && s[k..k + |v|] == v
  }

  predicate Occurs(v: Text, s: Text) {
    exists k :: 0 <= k <= |s| && StandsAt(v, s, k)
  }

  lemma {:induction false} PercentMatchesAll(s: Text)
    ensures Like([PERCENT], s)
  {
    if s != [] {
      PercentMatchesAll(s[1..]);
    } else {
      assert [PERCENT][1..] == [];
    }
  }

  lemma {:induction false} PlainIsPrefix(v: Text, s: Text)
    requires !HasMeta(v)
    ensures Like(v + [PERCENT], s) <==> v <= s
  {
    if v == [] {
      assert v + [PERCENT] == [PERCENT];
      PercentMatchesAll(s);
    } else {
      assert !IsMeta(v[0]);
      assert forall i :: 0 <= i < |v[1..]| ==> v[1..][i] == v[i + 1];
      assert (v + [PERCENT])[1..] == v[1..] + [PERCENT];
      if s != [] {
        PlainIsPrefix(v[1..], s[1..]);
        assert v <= s <==> v[0] == s[0] && v[1..] <= s[1..];
      }
    }
  }

  lemma {:induction false} PercentFirst(p: Text, s: Text)
    ensures Like([PERCENT] + p, s) <==> exists k :: 0 <= k <= |s| && Like(p, s[k..])
  {
    assert ([PERCENT] + p)[1..] == p && s[0..] == s;
    if s != [] {
      PercentFirst(p, s[1..]);
      assert forall k :: 0 <= k <= |s[1..]| ==> s[1..][k..] == s[k + 1..];
      if k :| 0 <= k <= |s| && Like(p, s[k..]) {
        assert k == 0 || s[1..][k - 1..] == s[k..];
      }
      if k :| 0 <= k <= |s[1..]| && Like(p, s[1..][k..]) {
        assert Like(p, s[k + 1..]);
      }
    }
  }

  lemma PlainAround(v: Text, s: Text)
    requires !HasMeta(v)
    ensures Like(Around(v), s) <==> Occurs(v, s)
  {
    assert Around(v) == [PERCENT] + (v + [PERCENT]);
    PercentFirst(v + [PERCENT], s);
    forall k | 0 <= k <= |s|
      ensures Like(v + [PERCENT], s[k..]) <==> StandsAt(v, s, k)
    {
      PlainIsPrefix(v, s[k..]);
      if k <= |s| - |v| {
        assert s[k..][..|v|] == s[k..k + |v|];
      }
    }
  }

  /** A short text that the pattern accepts: wildcards filled in with as little as possible. */
  function Instance(v: Text): Text {
    if v == [] then []
    else if v[0] == PERCENT then Instance(v[1..])
    else if v[0] == BACKSLASH then if |v| >= 2 then [v[1]] + Instance(v[2..]) else [PERCENT]
    else [if v[0] == UNDERSCORE then 97 else v[0]] + Instance(v[1..])
  }

  lemma {:induction false} InstanceAccepted(v: Text)
    ensures Like(v + [PERCENT], Instance(v))
  {
    var p := v + [PERCENT];
    if v == [] {
      assert p == [PERCENT];
      PercentMatchesAll([]);
    } else if v[0] == PERCENT {
      InstanceAccepted(v[1..]);
      assert p[1..] == v[1..] + [PERCENT];
    } else if v[0] == BACKSLASH {
      if |v| >= 2 {
        InstanceAccepted(v[2..]);
        assert p[2..] == v[2..] + [PERCENT];
        assert Instance(v)[1..] == Instance(v[2..]);
      } else {
        assert p[2..] == [] && Instance(v)[1..] == [];
      }
    } else {
      InstanceAccepted(v[1..]);
      assert p[1..] == v[1..] + [PERCENT];
      assert Instance(v)[1..] == Instance(v[1..]);
    }
  }

  lemma {:induction false} InstanceDiffers(v: Text)
    ensures |Instance(v)| <= |v|
    ensures HasMeta(v) && |Instance(v)| == |v| ==> Instance(v) != v
  {
    if v != [] {
      if v[0] == PERCENT {
        InstanceDiffers(v[1..]);
      } else if v[0] == BACKSLASH {
        if |v| >= 2 {
          InstanceDiffers(v[2..]);
        }
      } else {
        InstanceDiffers(v[1..]);
        if HasMeta(v) && v[0] != UNDERSCORE {
          var i :| 0 <= i < |v| && IsMeta(v[i]);
          assert IsMeta(v[1..][i - 1]);
          assert Instance(v)[1..] == Instance(v[1..]);
        }
      }
    }
  }

  lemma {:induction false} InstanceLower(v: Text)
    requires Lower(v) == v
    ensures Lower(Instance(v)) == Instance(v)
  {
    if v != [] {
      assert forall i :: 0 <= i < |v| ==> LowerUnit(v[i]) == Lower(v)[i] == v[i];
      if v[0] == PERCENT {
        assert Lower(v[1..]) == v[1..];
        InstanceLower(v[1..]);
      } else if v[0] == BACKSLASH {
        if |v| >= 2 {
          assert Lower(v[2..]) == v[2..];
          InstanceLower(v[2..]);
          LowerConcat([v[1]], Instance(v[2..]));
        }
      } else {
        assert Lower(v[1..]) == v[1..];
        InstanceLower(v[1..]);
        LowerConcat([if v[0] == UNDERSCORE then 97 else v[0]], Instance(v[1..]));
      }
    }
  }

  lemma LowerAround(v: Text)
    ensures Lower(Around(v)) == Around(Lower(v)) && (HasMeta(Lower(v)) <==> HasMeta(v)) && Lower(Lower(v)) == Lower(v)
  {
    assert forall i :: 0 <= i < |v| ==> (IsMeta(Lower(v)[i]) <==> IsMeta(v[i]));
    if i :| 0 <= i < |v| && IsMeta(v[i]) {
      assert IsMeta(Lower(v)[i]);
    }
    if i :| 0 <= i < |Lower(v)| && IsMeta(Lower(v)[i]) {
      assert IsMeta(v[i]);
    }
  }

  lemma MetaMisleads(v: Text)
    requires HasMeta(v)
    ensures var s := Instance(Lower(v)); ILike(v, s) && !Occurs(Lower(v), Lower(s))
  {
    var w := Lower(v);
    var s := Instance(w);
    LowerAround(v);
    InstanceAccepted(w);
    InstanceDiffers(w);
    InstanceLower(w);
    assert Around(w) == [PERCENT] + (w + [PERCENT]);
    PercentFirst(w + [PERCENT], s);
    assert s[0..] == s;
    forall k | 0 <= k <= |s|
      ensures !StandsAt(w, s, k)
    {
      assert s[0..|s|] == s;
    }
  }

  /** `contains` is a search for the value, in any case, exactly when the value holds no `%`, `_` or backslash. */
  lemma ContainsIsSearch(v: Text)
    ensures (forall s :: ILike(v, s) <==> Occurs(Lower(v), Lower(s))) <==> !HasMeta(v)
  {
    LowerAround(v);
    if HasMeta(v) {
      MetaMisleads(v);
    } else {
      forall s
        ensures ILike(v, s) <==> Occurs(Lower(v), Lower(s))
      {
        PlainAround(Lower(v), Lower(s));
      }
    }
  }

  // ----- Members and size of an audience --------------------------------------------------------------------

  datatype Membership = Membership(listId: nat, contactId: nat)

  /** An audience is a rule, or a list of members. */
  datatype Audience = Audience(id: nat, workspace: nat, client: Option<nat>, filter: Option<Filter>)

  function Filtered(rows: seq<Contact>, k: Clause, collation: Collation): seq<Contact> {
    if rows == [] then []
    else (if Selects(k, rows[0], collation) then [rows[0]] else []) + Filtered(rows[1..], k, collation)
  }

  function WithId(rows: seq<Contact>, id: nat): seq<Contact> {
    if rows == [] then [] else (if rows[0].id == id then [rows[0]] else []) + WithId(rows[1..], id)
  }

  /** The inner join of a list's memberships with the contacts. */
  function Joined(members: seq<Membership>, rows: seq<Contact>, listId: nat): seq<Contact> {
    if members == [] then []
    else
      (if members[0].listId == listId then WithId(rows, members[0].contactId) else [])
      + Joined(members[1..], rows, listId)
  }

  function CountOf(members: seq<Membership>, listId: nat): nat {
    if members == [] then 0 else (if members[0].listId == listId then 1 else 0) + CountOf(members[1..], listId)
  }

  function CountSelected(rows: seq<Contact>, k: Clause, collation: Collation): nat {
    if rows == [] then 0
    else (if Selects(k, rows[0], collation) then 1 else 0) + CountSelected(rows[1..], k, collation)
  }

  function AudienceMembers(a: Audience, rows: seq<Contact>, members: seq<Membership>, collation: Collation)
      : Result<seq<Contact>, string>
  {
    match a.filter
    case Some(f) =>
      var k := SegmentWhere(f, a.workspace, a.client);
      if k.Failure? then Failure(k.error) else Success(Filtered(rows, k.value, collation))
    case None => Success(Joined(members, rows, a.id))
  }

  function AudienceSize(a: Audience, rows: seq<Contact>, members: seq<Membership>, collation: Collation)
      : Result<nat, string>
  {
    match a.filter
    case Some(f) =>
      var k := SegmentWhere(f, a.workspace, a.client);
      if k.Failure? then Failure(k.error) else Success(CountSelected(rows, k.value, collation))
    case None => Success(CountOf(members, a.id))
  }

  /** Contact ids are unique, and memberships point at contacts that exist. */
  ghost predicate Intact(rows: seq<Contact>, members: seq<Membership>) {
    && (forall i, j :: 0 <= i < j < |rows| ==> rows[i].id != rows[j].id)
    && forall m :: m in members ==> exists i :: 0 <= i < |rows| && rows[i].id == m.contactId
  }

  lemma {:induction false} NobodyWithId(rows: seq<Contact>, id: nat)
    requires forall i :: 0 <= i < |rows| ==> rows[i].id != id
    ensures WithId(rows, id) == []
  {
    if rows != [] {
      NobodyWithId(rows[1..], id);
    }
  }

  lemma {:induction false} OneWithId(rows: seq<Contact>, i: nat)
    requires i < |rows| && forall j, k :: 0 <= j < k < |rows| ==> rows[j].id != rows[k].id
    ensures WithId(rows, rows[i].id) == [rows[i]]
  {
    if i == 0 {
      NobodyWithId(rows[1..], rows[0].id);
    } else {
      OneWithId(rows[1..], i - 1);
    }
  }

  lemma {:induction false} JoinedCount(members: seq<Membership>, rows: seq<Contact>, listId: nat)
    requires Intact(rows, members)
    ensures |Joined(members, rows, listId)| == CountOf(members, listId)
  {
    if members != [] {
      assert members[0] in members;
      assert forall m :: m in members[1..] ==> m in members;
      JoinedCount(members[1..], rows, listId);
      var i :| 0 <= i < |rows| && rows[i].id == members[0].contactId;
      OneWithId(rows, i);
    }
  }

  lemma {:induction false} SelectedCount(rows: seq<Contact>, k: Clause, collation: Collation)
    ensures |Filtered(rows, k, collation)| == CountSelected(rows, k, collation)
    ensures forall x :: x in Filtered(rows, k, collation) <==> x in rows && Selects(k, x, collation)
  {
    if rows != [] {
      SelectedCount(rows[1..], k, collation);
      assert rows == [rows[0]] + rows[1..];
    }
  }

  /** The size that is shown is the number of people who are reached, and both fail on the same rules. */
  lemma SizeIsMemberCount(a: Audience, rows: seq<Contact>, members: seq<Membership>, collation: Collation)
    requires Intact(rows, members)
    ensures AudienceSize(a, rows, members, collation).Success?
            <==> AudienceMembers(a, rows, members, collation).Success?
    ensures AudienceSize(a, rows, members, collation).Success? ==>
              AudienceSize(a, rows, members, collation).value == |AudienceMembers(a, rows, members, collation).value|
  {
    match a.filter
    case Some(f) =>
      var k := SegmentWhere(f, a.workspace, a.client);
      if k.Success? {
        SelectedCount(rows, k.value, collation);
      }
    case None => JoinedCount(members, rows, a.id);
  }

  /** A segment reaches exactly the active contacts its rule describes. */
  lemma SegmentReaches(a: Audience, f: Filter, rows: seq<Contact>, members: seq<Membership>, collation: Collation,
                       x: Contact)
    requires a.filter == Some(f)
    ensures var reached := AudienceMembers(a, rows, members, collation);
            && (reached.Success? <==> ValidFilter(f))
            && (reached.Success? && x in reached.value <==>
                  ValidFilter(f) && x in rows && x.workspace == a.workspace && x.client == a.client
                  && x.status == ACTIVE && RuleHolds(f, x, collation))
  {
    if ValidFilter(f) {
      SelectedCount(rows, SegmentWhere(f, a.workspace, a.client).value, collation);
      WhereMeansRule(f, a.workspace, a.client, x, collation);
    }
  }
}
