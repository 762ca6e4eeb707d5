// Filling in defaults and validating a configuration record by the rules attached
// to its fields.  Fields are visited in map iteration order, and so are the
// conditions under which a field is required; each field is judged on the values
// the record had at the start.
module ConfigFields {
  import opened Wrappers

  datatype Value =
    | Text(text: string)
    | MaybeText(maybeText: Option<string>)
    | Number(number: int)
    | MaybeNumber(maybeNumber: Option<int>)
    | Flag(flag: bool)
    | MaybeFlag(maybeFlag: Option<bool>)
    | Texts(texts: seq<string>)
    | Pointer(target: Option<Record>)
    | Inline(record: Record)

  type Record = map<string, Value>

  // section is the schema of the record a field points to or holds.
  datatype Rule = Rule(required: bool, requiredIf: map<string, string>, oneOf: seq<string>, checks: seq<string>,
                       default: Option<Value>, section: Option<Schema>)

  datatype Schema = Schema(rules: map<string, Rule>)

  // Whether a string passes the validator of this name.
  type Validator = (string, string) -> bool

  datatype Verdict = Accepted | Rejected | Crashed

  predicate IsEmpty(v: Value) {
    v == MaybeText(None) || v == MaybeNumber(None) || v == MaybeFlag(None) || v == Texts([]) || v == Pointer(None)
  }

  predicate SameKind(v: Value, w: Value) {
    match v
    case Text(_) => w.Text?
    case MaybeText(_) => w.MaybeText?
    case Number(_) => w.Number?
    case MaybeNumber(_) => w.MaybeNumber?
    case Flag(_) => w.Flag?
    case MaybeFlag(_) => w.MaybeFlag?
    case Texts(_) => w.Texts?
    case Pointer(_) => w.Pointer?
    case Inline(_) => w.Inline?
  }

  // The schema describes this record: a default is a non-empty value of the
  // field's kind, and a field that leads to another record names its schema.
  predicate Fits(schema: Schema, config: Record)
    decreases schema
  {
    && config.Keys == schema.rules.Keys
    && forall name :: name in config ==>
         var rule, v := schema.rules[name], config[name];
         && (rule.default.Some? ==>
               SameKind(v, rule.default.value) && !IsEmpty(rule.default.value) && !v.Pointer? && !v.Inline?)
         && (v.Pointer? ==> rule.section.Some?)
         && (v.Pointer? && v.target.Some? ==> Fits(rule.section.value, v.target.value))
  }

  // ---------------------------------------------------------- when is it required

  // What one condition says: it holds, it does not, the field it refers to does
  // not exist, or the field is a number, which the comparison does not survive.
  datatype Sign = Hit | Miss | Unknown | Broken

  function Look(config: Record, key: string, wanted: string): Sign {
    if key !in config then Unknown
    else
      match config[key]
      case Text(s) => if s == wanted then Hit else Miss
      case MaybeText(Some(s)) => if s == wanted then Hit else Miss
      case Number(_) => Broken
      case MaybeNumber(Some(_)) => Broken
      case _ => Miss
  }

  // The first sign that is not a miss, in this order of the conditions.
  function FirstSign(config: Record, requiredIf: map<string, string>, keys: seq<string>): Sign
    requires forall key :: key in keys ==> key in requiredIf
  {
    if keys == [] then Miss
    else
      var sign := Look(config, keys[0], requiredIf[keys[0]]);
      if sign != Miss then sign else FirstSign(config, requiredIf, keys[1..])
  }

  ghost predicate OrderOf(keys: seq<string>, all: set<string>) {
    && (forall key :: key in keys <==> key in all)
    && forall i, j :: 0 <= i < j < |keys| ==> keys[i] != keys[j]
  }

  ghost predicate Shows(config: Record, requiredIf: map<string, string>, sign: Sign) {
    exists key :: key in requiredIf && Look(config, key, requiredIf[key]) == sign
  }

  lemma {:induction false} FirstSignShows(config: Record, requiredIf: map<string, string>, keys: seq<string>)
    requires forall key :: key in keys ==> key in requiredIf
    ensures var sign := FirstSign(config, requiredIf, keys);
            if sign == Miss then forall key :: key in keys ==> Look(config, key, requiredIf[key]) == Miss
            else exists key :: key in keys && Look(config, key, requiredIf[key]) == sign
  {
    if keys == [] || Look(config, keys[0], requiredIf[keys[0]]) != Miss {
    } else {
      FirstSignShows(config, requiredIf, keys[1..]);
      assert forall key :: key in keys <==> key == keys[0] || key in keys[1..];
    }
  }

  lemma {:induction false} Listing(all: set<string>) returns (keys: seq<string>)
    ensures OrderOf(keys, all)
  {
    if all == {} {
      keys := [];
    } else {
      var key :| key in all;
      var rest := Listing(all - {key});
      keys := [key] + rest;
    }
  }

  lemma OrderFrom(config: Record, requiredIf: map<string, string>, key: string) returns (keys: seq<string>)
    requires key in requiredIf && Look(config, key, requiredIf[key]) != Miss
    ensures OrderOf(keys, requiredIf.Keys)
    ensures FirstSign(config, requiredIf, keys) == Look(config, key, requiredIf[key])
  {
    var rest := Listing(requiredIf.Keys - {key});
    keys := [key] + rest;
  }

  ghost predicate OrderMatters(config: Record, requiredIf: map<string, string>) {
    exists k1, k2 :: OrderOf(k1, requiredIf.Keys) && OrderOf(k2, requiredIf.Keys)
                     && FirstSign(config, requiredIf, k1) != FirstSign(config, requiredIf, k2)
  }

  // The order in which the conditions are looked at matters exactly when two of
  // them show different signs other than a miss.
  lemma OrderMattersExactly(config: Record, requiredIf: map<string, string>)
    ensures OrderMatters(config, requiredIf)
       <==> exists s, t :: s != t && s != Miss && t != Miss
                           && Shows(config, requiredIf, s) && Shows(config, requiredIf, t)
  {
    if OrderMatters(config, requiredIf) {
      var k1, k2 :| OrderOf(k1, requiredIf.Keys) && OrderOf(k2, requiredIf.Keys)
                    && FirstSign(config, requiredIf, k1) != FirstSign(config, requiredIf, k2);
      FirstSignShows(config, requiredIf, k1);
      FirstSignShows(config, requiredIf, k2);
      assert Shows(config, requiredIf, FirstSign(config, requiredIf, k1))
          && Shows(config, requiredIf, FirstSign(config, requiredIf, k2));
    }
    if s, t :| s != t && s != Miss && t != Miss && Shows(config, requiredIf, s) && Shows(config, requiredIf, t) {
      var a :| a in requiredIf && Look(config, a, requiredIf[a]) == s;
      var b :| b in requiredIf && Look(config, b, requiredIf[b]) == t;
      var k1 := OrderFrom(config, requiredIf, a);
      var k2 := OrderFrom(config, requiredIf, b);
      assert FirstSign(config, requiredIf, k1) != FirstSign(config, requiredIf, k2);
    }
  }

  // ------------------------------------------------------------------ one field

  predicate Needed(rule: Rule, config: Record) {
    rule.required || exists key :: key in rule.requiredIf && Look(config, key, rule.requiredIf[key]) == Hit
  }

  // Every condition that is looked at can be evaluated.
  predicate Evaluable(rule: Rule, config: Record) {
    rule.required || forall key :: key in rule.requiredIf ==>
      Look(config, key, rule.requiredIf[key]) == Hit || Look(config, key, rule.requiredIf[key]) == Miss
  }

  function Defaulted(rule: Rule, v: Value): Value {
    if IsEmpty(v) && rule.default.Some? then rule.default.value else v
  }

  // A list passes as soon as one of its elements is allowed.
  predicate OneOfOk(oneOf: seq<string>, v: Value) {
    oneOf == [] ||
    match v
    case Text(s) => s in oneOf
    case MaybeText(o) => (if o.Some? then o.value else "") in oneOf
    case Texts(items) => exists s :: s in oneOf && s in items
    case _ => false
  }

  predicate PassesAll(checks: seq<string>, s: string, passes: Validator) {
    forall c :: c in checks ==> passes(c, s)
  }

  predicate ChecksOk(checks: seq<string>, v: Value, passes: Validator) {
    checks == [] ||
    match v
    case Text(s) => s == "" || PassesAll(checks, s, passes)
    case MaybeText(o) => o.None? || o.value == "" || PassesAll(checks, o.value, passes)
    case Texts(items) => forall s :: s in items ==> PassesAll(checks, s, passes)
    case _ => false
  }

  // The field is acceptable; a value that was empty is not put to the checks,
  // even when a default has taken its place.
  predicate FieldOk(schema: Schema, name: string, config: Record, passes: Validator)
    requires Fits(schema, config) && name in config
    decreases schema, 0
  {
    var rule, v := schema.rules[name], config[name];
    && (Needed(rule, config) ==> !IsEmpty(v))
    && OneOfOk(rule.oneOf, Defaulted(rule, v))
    && (IsEmpty(v) || ChecksOk(rule.checks, v, passes))
    && (Needed(rule, config) ==> !v.Inline?)
    && (Needed(rule, config) && v.Pointer? && v.target.Some? ==> Ok(rule.section.value, v.target.value, passes))
  }

  predicate Ok(schema: Schema, config: Record, passes: Validator)
    requires Fits(schema, config)
    decreases schema, 1
  {
    forall name :: name in config ==> FieldOk(schema, name, config, passes)
  }

  // What becomes of a field: its default when it was empty, and the same inside
  // the record it points to if the field is required.
  function FieldAfter(schema: Schema, name: string, config: Record): Value
    requires Fits(schema, config) && name in config
    decreases schema, 0
  {
    var rule, v := schema.rules[name], config[name];
    if Needed(rule, config) && v.Pointer? && v.target.Some?
    then Pointer(Some(Filled(rule.section.value, v.target.value)))
    else Defaulted(rule, v)
  }

  function Filled(schema: Schema, config: Record): (r: Record)
    requires Fits(schema, config)
    ensures r.Keys == config.Keys
    decreases schema, 1
  {
    map name | name in config :: FieldAfter(schema, name, config)
  }

  // No condition is out of place and no required field is held by value, here or
  // in the records that required fields point to.
  predicate FieldClean(schema: Schema, name: string, config: Record)
    requires Fits(schema, config) && name in config
    decreases schema, 0
  {
    var rule, v := schema.rules[name], config[name];
    && Evaluable(rule, config)
    && (Needed(rule, config) ==> !v.Inline?)
    && (Needed(rule, config) && v.Pointer? && v.target.Some? ==> Clean(rule.section.value, v.target.value))
  }

  predicate Clean(schema: Schema, config: Record)
    requires Fits(schema, config)
    decreases schema, 1
  {
    forall name :: name in config ==> FieldClean(schema, name, config)
  }

  // ------------------------------------------------------- what an accepted record is

  // The rule requires the field, or one of its conditions names a field that holds
  // this text.
  predicate Demanded(rule: Rule, config: Record) {
    rule.required
    || exists key :: key in rule.requiredIf && key in config
         && (config[key] == Text(rule.requiredIf[key]) || config[key] == MaybeText(Some(rule.requiredIf[key])))
  }

  predicate Missing(v: Value) {
    match v
    case MaybeText(o) => o.None?
    case MaybeNumber(o) => o.None?
    case MaybeFlag(o) => o.None?
    case Texts(items) => |items| == 0
    case Pointer(o) => o.None?
    case _ => false
  }

  predicate Listed(oneOf: seq<string>, items: seq<string>) {
    oneOf == [] || exists i, j :: 0 <= i < |items| && 0 <= j < |oneOf| && items[i] == oneOf[j]
  }

  predicate Passes(checks: seq<string>, items: seq<string>, passes: Validator) {
    forall i, j :: 0 <= i < |items| && 0 <= j < |checks| ==> passes(checks[j], items[i])
  }

  // The field starts as v and ends as w.  What is missing becomes its default and is
  // not checked; what is there stays and passes every validator, unless it is an
  // empty text; and of what the field ends with one item at least is in the list.
  predicate Lawful(rule: Rule, v: Value, w: Value, passes: Validator) {
    && (Missing(v) ==> w == if rule.default.Some? then rule.default.value else v)
    && match v
       case Text(s) => w == v && Listed(rule.oneOf, [s]) && (s != "" ==> Passes(rule.checks, [s], passes))
       case MaybeText(Some(s)) => w == v && Listed(rule.oneOf, [s]) && (s != "" ==> Passes(rule.checks, [s], passes))
       case MaybeText(None) =>
         w.MaybeText? && Listed(rule.oneOf, [if w.maybeText.Some? then w.maybeText.value else ""])
       case Texts(items) =>
         w.Texts? && Listed(rule.oneOf, w.texts) && (items != [] ==> w == v && Passes(rule.checks, items, passes))
       case Pointer(None) => rule.oneOf == []
       case Pointer(_) => rule.oneOf == [] && rule.checks == []
       case _ => rule.oneOf == [] && (!Missing(v) ==> w == v && rule.checks == [])
  }

  // A demanded field is there and not held by value, and the record it points to is
  // treated in the same way; nobody looks into the others.
  predicate LawfulField(schema: Schema, name: string, config: Record, w: Value, passes: Validator)
    requires Fits(schema, config) && name in config
    decreases schema, 0
  {
    var rule, v := schema.rules[name], config[name];
    && Lawful(rule, v, w, passes)
    && (Demanded(rule, config) ==> !Missing(v) && !v.Inline?)
    && (v.Pointer? && v.target.Some? && !Demanded(rule, config) ==> w == v)
    && (v.Pointer? && v.target.Some? && Demanded(rule, config) ==>
          w.Pointer? && w.target.Some? && LawfulRecord(rule.section.value, v.target.value, w.target.value, passes))
  }

  predicate LawfulRecord(schema: Schema, config: Record, r: Record, passes: Validator)
    requires Fits(schema, config)
    decreases schema, 1
  {
    r.Keys == config.Keys && forall name :: name in config ==> LawfulField(schema, name, config, r[name], passes)
  }

  lemma NeededIsDemanded(rule: Rule, config: Record)
    ensures Needed(rule, config) <==> Demanded(rule, config)
  {}

  lemma EmptyIsMissing(v: Value)
    ensures IsEmpty(v) <==> Missing(v)
  {}

  lemma ListedIsOneOf(oneOf: seq<string>, items: seq<string>)
    ensures Listed(oneOf, items) <==> oneOf == [] || exists s :: s in oneOf && s in items
  {
    if i, j :| 0 <= i < |items| && 0 <= j < |oneOf| && items[i] == oneOf[j] {
      assert items[i] in oneOf && items[i] in items;
    }
    if s :| s in oneOf && s in items {
      var i :| 0 <= i < |items| && items[i] == s;
      var j :| 0 <= j < |oneOf| && oneOf[j] == s;
    }
  }

  lemma PassesIsChecked(checks: seq<string>, items: seq<string>, passes: Validator)
    ensures Passes(checks, items, passes) <==> forall s :: s in items ==> PassesAll(checks, s, passes)
  {
    if Passes(checks, items, passes) {
      forall s, c | s in items && c in checks ensures passes(c, s) {
        var i :| 0 <= i < |items| && items[i] == s;
        var j :| 0 <= j < |checks| && checks[j] == c;
      }
    }
    if forall s :: s in items ==> PassesAll(checks, s, passes) {
      forall i, j | 0 <= i < |items| && 0 <= j < |checks| ensures passes(checks[j], items[i]) {
        assert items[i] in items && checks[j] in checks;
      }
    }
  }

  function TextOf(v: Value): string {
    match v
    case Text(s) => s
    case MaybeText(Some(s)) => s
    case _ => ""
  }

  lemma LawfulIsOk(rule: Rule, v: Value, w: Value, passes: Validator)
    requires rule.default.Some? ==> SameKind(v, rule.default.value) && !IsEmpty(rule.default.value)
    requires v.Pointer? || v.Inline? ==> rule.default.None?
    ensures Lawful(rule, v, w, passes) && (v.Pointer? || v.Inline? ==> w == v)
       <==> OneOfOk(rule.oneOf, Defaulted(rule, v)) && (IsEmpty(v) || ChecksOk(rule.checks, v, passes))
            && w == Defaulted(rule, v)
  {
    EmptyIsMissing(v);
    var d := Defaulted(rule, v);
    ListedIsOneOf(rule.oneOf, if d.Texts? then d.texts else [TextOf(d)]);
    PassesIsChecked(rule.checks, if v.Texts? then v.texts else [TextOf(v)], passes);
  }

  lemma {:induction false} LawfulFieldExactly(schema: Schema, name: string, config: Record, w: Value,
                                              passes: Validator)
    requires Fits(schema, config) && name in config
    ensures LawfulField(schema, name, config, w, passes)
       <==> FieldOk(schema, name, config, passes) && w == FieldAfter(schema, name, config)
    decreases schema, 0
  {
    var rule, v := schema.rules[name], config[name];
    NeededIsDemanded(rule, config);
    EmptyIsMissing(v);
    if v.Pointer? && v.target.Some? && w.Pointer? && w.target.Some? {
      LawfulIsOk(rule, v, v, passes);
      LawfulExactly(rule.section.value, v.target.value, w.target.value, passes);
    } else {
      LawfulIsOk(rule, v, w, passes);
    }
  }

  // The records that can be accepted, and what becomes of them.
  lemma {:induction false} LawfulExactly(schema: Schema, config: Record, r: Record, passes: Validator)
    requires Fits(schema, config)
    ensures LawfulRecord(schema, config, r, passes) <==> Ok(schema, config, passes) && r == Filled(schema, config)
    decreases schema, 1
  {
    if r.Keys == config.Keys {
      forall name | name in config
        ensures LawfulField(schema, name, config, r[name], passes)
           <==> FieldOk(schema, name, config, passes) && r[name] == FieldAfter(schema, name, config)
      {
        LawfulFieldExactly(schema, name, config, r[name], passes);
      }
    }
  }

  // ------------------------------------------------------- what a run may end with

  // The field's verdict once it is clear whether it is required, unless the record
  // it points to has to be asked.
  datatype Ruling = Final(verdict: Verdict) | AskInner

  function Judge(rule: Rule, v: Value, passes: Validator, sign: Sign): Ruling {
    if sign == Broken then Final(Crashed)
    else if sign == Unknown then Final(Rejected)
    else if sign == Hit && IsEmpty(v) then Final(Rejected)
    else if !OneOfOk(rule.oneOf, Defaulted(rule, v)) then Final(Rejected)
    else if !IsEmpty(v) && !ChecksOk(rule.checks, v, passes) then Final(Rejected)
    else if sign == Hit && v.Inline? then Final(Crashed)
    else if sign == Hit && v.Pointer? then AskInner
    else Final(Accepted)
  }

  // The conditions, looked at in some order, may come to this.
  predicate MaySign(rule: Rule, config: Record, sign: Sign) {
    if rule.required then sign == Hit
    else if sign == Miss then forall key :: key in rule.requiredIf ==> Look(config, key, rule.requiredIf[key]) == Miss
    else exists key :: key in rule.requiredIf && Look(config, key, rule.requiredIf[key]) == sign
  }

  ghost predicate FieldMayAt(schema: Schema, name: string, config: Record, passes: Validator, verdict: Verdict,
                             sign: Sign)
    requires Fits(schema, config) && name in config
    decreases schema, 0
  {
    var rule, v := schema.rules[name], config[name];
    match Judge(rule, v, passes, sign)
    case Final(end) => end == verdict
    case AskInner => May(rule.section.value, v.target.value, passes, verdict)
  }

  ghost predicate FieldMay(schema: Schema, name: string, config: Record, passes: Validator, verdict: Verdict)
    requires Fits(schema, config) && name in config
    decreases schema, 1
  {
    exists sign: Sign ::
      MaySign(schema.rules[name], config, sign) && FieldMayAt(schema, name, config, passes, verdict, sign)
  }

  // The record may be accepted when every field may be, and rejected, or crashed
  // on, when some field may be.
  ghost predicate May(schema: Schema, config: Record, passes: Validator, verdict: Verdict)
    requires Fits(schema, config)
    decreases schema, 2
  {
    if verdict.Accepted? then forall name :: name in config ==> FieldMay(schema, name, config, passes, Accepted)
    else exists name :: name in config && FieldMay(schema, name, config, passes, verdict)
  }

  // -------------------------------------------------------------- the operations

  lemma {:induction false} SkipMisses(config: Record, requiredIf: map<string, string>, seen: seq<string>,
                                      more: seq<string>)
    requires forall key :: key in seen ==> key in requiredIf && Look(config, key, requiredIf[key]) == Miss
    requires forall key :: key in more ==> key in requiredIf
    ensures FirstSign(config, requiredIf, seen + more) == FirstSign(config, requiredIf, more)
  {
    if seen != [] {
      SkipMisses(config, requiredIf, seen[1..], more);
      assert (seen + more)[1..] == seen[1..] + more;
    } else {
      assert seen + more == more;
    }
  }

  lemma SplitOrder(seen: seq<string>, more: seq<string>, key: string, all: set<string>, rest: set<string>)
    requires OrderOf(seen, all - rest) && rest <= all && key in rest && OrderOf(more, rest - {key})
    ensures OrderOf(seen + ([key] + more), all)
  {
    var tail := [key] + more;
    assert forall k :: k in tail <==> k in rest;
    assert forall i, j :: 0 <= i < j < |tail| ==> tail[i] != tail[j];
    forall i, j | 0 <= i < j < |seen + tail| ensures (seen + tail)[i] != (seen + tail)[j] {
      if i < |seen| <= j { assert seen[i] in seen && tail[j - |seen|] in tail; }
    }
  }

  // Look at the conditions one after the other until one is not a miss.
  method CheckConditions(config: Record, requiredIf: map<string, string>) returns (sign: Sign, ghost keys: seq<string>)
    ensures if sign == Miss then forall key :: key in requiredIf ==> Look(config, key, requiredIf[key]) == Miss
            else Shows(config, requiredIf, sign)
    ensures OrderOf(keys, requiredIf.Keys) && sign == FirstSign(config, requiredIf, keys)
  {
    sign, keys := Miss, [];
    var rest := requiredIf.Keys;
    while rest != {}
      invariant rest <= requiredIf.Keys && OrderOf(keys, requiredIf.Keys - rest)
      invariant sign == Miss && forall key :: key in keys ==> Look(config, key, requiredIf[key]) == Miss
      decreases rest
    {
      var key :| key in rest;
      sign := Look(config, key, requiredIf[key]);
      if sign != Miss {
        ghost var more := Listing(rest - {key});
        SplitOrder(keys, more, key, requiredIf.Keys, rest);
        SkipMisses(config, requiredIf, keys, [key] + more);
        keys := keys + ([key] + more);
        return;
      }
      rest := rest - {key};
      keys := keys + [key];
    }
    FirstSignShows(config, requiredIf, keys);
  }

  method ValidateField(schema: Schema, name: string, config: Record, passes: Validator)
    returns (verdict: Verdict, value: Value)
    requires Fits(schema, config) && name in config
    ensures verdict.Accepted? ==> FieldOk(schema, name, config, passes) && value == FieldAfter(schema, name, config)
    ensures FieldClean(schema, name, config) ==>
              verdict == if FieldOk(schema, name, config, passes) then Accepted else Rejected
    ensures FieldMay(schema, name, config, passes, verdict)
    decreases schema, 0
  {
    var rule := schema.rules[name];
    value := config[name];
    var required := rule.required;
    ghost var judged: Sign := Hit;
    if !required {
      ghost var keys;
      var sign;
      sign, keys := CheckConditions(config, rule.requiredIf);
      judged := sign;
      assert MaySign(rule, config, judged);
      if sign == Broken { return Crashed, value; }
      if sign == Unknown { return Rejected, value; }
      required := sign == Hit;
    }
    assert MaySign(rule, config, judged) && (required <==> judged == Hit);
    if required && IsEmpty(value) {
      assert FieldMayAt(schema, name, config, passes, Rejected, judged);
      return Rejected, value;
    }
    var wasEmpty := IsEmpty(value);
    value := Defaulted(rule, value);
    if !OneOfOk(rule.oneOf, value) { return Rejected, value; }
    if !wasEmpty && !ChecksOk(rule.checks, value, passes) { return Rejected, value; }
    if required && value.Inline? { return Crashed, value; }
    verdict := Accepted;
    if required && value.Pointer? {
      var inner;
      verdict, inner := SetDefaultsAndValidate(rule.section.value, value.target.value, passes);
      value := Pointer(Some(inner));
    }
  }

  // All fields but those in rest were found acceptable and filled in.
  ghost predicate PartlyFilled(schema: Schema, config: Record, r: Record, rest: set<string>, passes: Validator)
    requires Fits(schema, config)
  {
    && r.Keys == config.Keys && rest <= config.Keys
    && forall name :: name in config ==>
         if name in rest then r[name] == config[name]
         else FieldOk(schema, name, config, passes) && r[name] == FieldAfter(schema, name, config)
              && FieldMay(schema, name, config, passes, Accepted)
  }

  lemma FillOneMore(schema: Schema, config: Record, r: Record, rest: set<string>, passes: Validator, name: string)
    requires Fits(schema, config) && PartlyFilled(schema, config, r, rest, passes)
    requires name in rest && FieldOk(schema, name, config, passes) && FieldMay(schema, name, config, passes, Accepted)
    ensures PartlyFilled(schema, config, r[name := FieldAfter(schema, name, config)], rest - {name}, passes)
  {}

  lemma FilledCompletely(schema: Schema, config: Record, r: Record, passes: Validator)
    requires Fits(schema, config) && PartlyFilled(schema, config, r, {}, passes)
    ensures Ok(schema, config, passes) && r == Filled(schema, config) && May(schema, config, passes, Accepted)
  {}

  // Accepted means that every field was acceptable, and then the record is
  // determined.  For a clean record the verdict is determined as well: neither
  // depends on any iteration order.
  method SetDefaultsAndValidate(schema: Schema, config: Record, passes: Validator) returns (verdict: Verdict, r: Record)
    requires Fits(schema, config)
    ensures verdict.Accepted? ==> Ok(schema, config, passes) && r == Filled(schema, config)
    ensures verdict.Accepted? ==> LawfulRecord(schema, config, r, passes)
    ensures Clean(schema, config) ==> verdict == if Ok(schema, config, passes) then Accepted else Rejected
    ensures May(schema, config, passes, verdict)
    decreases schema, 1
  {
    r := config;
    var rest := config.Keys;
    while rest != {}
      invariant PartlyFilled(schema, config, r, rest, passes)
      decreases rest
    {
      var name :| name in rest;
      var value;
      verdict, value := ValidateField(schema, name, config, passes);
      if !verdict.Accepted? { return; }
      FillOneMore(schema, config, r, rest, passes, name);
      r := r[name := value];
      rest := rest - {name};
    }
    FilledCompletely(schema, config, r, passes);
    LawfulExactly(schema, config, r, passes);
    verdict := Accepted;
  }

  // ------------------------------------------------------------------ once or twice

  // The default of this field is what a condition waits for.
  predicate WillHit(schema: Schema, config: Record, key: string, wanted: string)
    requires Fits(schema, config)
  {
    key in config && IsEmpty(config[key]) && schema.rules[key].default == Some(MaybeText(Some(wanted)))
  }

  // The default of this field is a number, which no condition survives.
  predicate WillBreak(schema: Schema, config: Record, key: string)
    requires Fits(schema, config)
  {
    key in config && config[key] == MaybeNumber(None) && schema.rules[key].default.Some?
  }

  predicate Triggered(schema: Schema, rule: Rule, config: Record)
    requires Fits(schema, config)
  {
    exists key :: key in rule.requiredIf && WillHit(schema, config, key, rule.requiredIf[key])
  }

  predicate Breaks(schema: Schema, rule: Rule, config: Record)
    requires Fits(schema, config)
  {
    exists key :: key in rule.requiredIf && WillBreak(schema, config, key)
  }

  // Nothing is left to a second validation: no default would make another field
  // required that cannot stand it or break a condition, and every default passes
  // its own checks.
  predicate FieldSettled(schema: Schema, name: string, config: Record, passes: Validator)
    requires Fits(schema, config) && name in config
    decreases schema, 0
  {
    var rule, v := schema.rules[name], config[name];
    && (IsEmpty(v) && rule.default.Some? ==> ChecksOk(rule.checks, rule.default.value, passes))
    && (!rule.required ==> !Breaks(schema, rule, config))
    && (Needed(rule, config) && v.Pointer? && v.target.Some? ==> Settled(rule.section.value, v.target.value, passes))
    && (!Needed(rule, config) && Triggered(schema, rule, config) ==>
          && !IsEmpty(Defaulted(rule, v)) && !v.Inline?
          && (v.Pointer? && v.target.Some? ==>
                var inner, section := v.target.value, rule.section.value;
                Ok(section, inner, passes) && Clean(section, inner) && Filled(section, inner) == inner))
  }

  predicate Settled(schema: Schema, config: Record, passes: Validator)
    requires Fits(schema, config)
    decreases schema, 1
  {
    forall name :: name in config ==> FieldSettled(schema, name, config, passes)
  }

  lemma {:induction false} FilledFits(schema: Schema, config: Record)
    requires Fits(schema, config)
    ensures Fits(schema, Filled(schema, config))
    decreases schema
  {
    forall name | name in config && config[name].Pointer? && config[name].target.Some?
      ensures var section := schema.rules[name].section.value; Fits(section, Filled(section, config[name].target.value))
    {
      FilledFits(schema.rules[name].section.value, config[name].target.value);
    }
  }

  // How a condition reads once the defaults are in place.
  lemma LookFilled(schema: Schema, config: Record, key: string, wanted: string)
    requires Fits(schema, config)
    ensures var sign, after := Look(config, key, wanted), Look(Filled(schema, config), key, wanted);
            && ((after == Hit) <==> (sign == Hit || WillHit(schema, config, key, wanted)))
            && ((after == Broken) <==> (sign == Broken || WillBreak(schema, config, key)))
            && (after == Unknown <==> sign == Unknown)
  {}

  lemma NeededFilled(schema: Schema, rule: Rule, config: Record)
    requires Fits(schema, config)
    ensures Needed(rule, Filled(schema, config)) <==> Needed(rule, config) || Triggered(schema, rule, config)
  {
    var r := Filled(schema, config);
    if key :| key in rule.requiredIf && Look(r, key, rule.requiredIf[key]) == Hit {
      LookFilled(schema, config, key, rule.requiredIf[key]);
    }
    if key :| key in rule.requiredIf && Look(config, key, rule.requiredIf[key]) == Hit {
      LookFilled(schema, config, key, rule.requiredIf[key]);
    }
    if key :| key in rule.requiredIf && WillHit(schema, config, key, rule.requiredIf[key]) {
      LookFilled(schema, config, key, rule.requiredIf[key]);
    }
  }

  lemma EvaluableFilled(schema: Schema, rule: Rule, config: Record)
    requires Fits(schema, config)
    ensures Evaluable(rule, Filled(schema, config))
       <==> rule.required || (Evaluable(rule, config) && !Breaks(schema, rule, config))
  {}

  // A record that a validation accepts, whatever the order, and leaves alone.
  ghost predicate Stable(schema: Schema, config: Record, passes: Validator)
    requires Fits(schema, config)
  {
    Ok(schema, config, passes) && Clean(schema, config) && Filled(schema, config) == config
  }

  ghost predicate FieldStable(schema: Schema, name: string, config: Record, passes: Validator)
    requires Fits(schema, config) && name in config
  {
    FieldOk(schema, name, config, passes) && FieldClean(schema, name, config)
    && FieldAfter(schema, name, config) == config[name]
  }

  lemma StableFields(schema: Schema, config: Record, passes: Validator)
    requires Fits(schema, config)
    ensures Stable(schema, config, passes)
       <==> forall name :: name in config ==> FieldStable(schema, name, config, passes)
  {}

  lemma {:induction false} FieldTwice(schema: Schema, name: string, config: Record, passes: Validator)
    requires Fits(schema, config) && name in config && FieldOk(schema, name, config, passes)
    ensures Fits(schema, Filled(schema, config))
    ensures FieldStable(schema, name, Filled(schema, config), passes)
       <==> FieldClean(schema, name, config) && FieldSettled(schema, name, config, passes)
    decreases schema, 0
  {
    var rule, v, r := schema.rules[name], config[name], Filled(schema, config);
    FilledFits(schema, config);
    NeededFilled(schema, rule, config);
    EvaluableFilled(schema, rule, config);
    if Needed(rule, config) && v.Pointer? && v.target.Some? {
      var section, inner := rule.section.value, v.target.value;
      Twice(section, inner, passes);
    }
  }

  // A record that was accepted once is accepted again in any order, unchanged,
  // exactly when it is clean and settled.
  lemma {:induction false} Twice(schema: Schema, config: Record, passes: Validator)
    requires Fits(schema, config) && Ok(schema, config, passes)
    ensures Fits(schema, Filled(schema, config))
    ensures Stable(schema, Filled(schema, config), passes) <==> Clean(schema, config) && Settled(schema, config, passes)
    decreases schema, 1
  {
    var r := Filled(schema, config);
    FilledFits(schema, config);
    StableFields(schema, r, passes);
    forall name | name in config
      ensures FieldStable(schema, name, r, passes)
         <==> FieldClean(schema, name, config) && FieldSettled(schema, name, config, passes)
    {
      FieldTwice(schema, name, config, passes);
    }
  }

  // A default that its own check refuses gets through the first time only.
  lemma RefusedTheSecondTime(passes: Validator)
    requires !passes("ipv4", "none")
    ensures var rule := Rule(false, map[], [], ["ipv4"], Some(MaybeText(Some("none"))), None);
            var schema, config := Schema(map["Gateway" := rule]), map["Gateway" := MaybeText(None)];
            && Fits(schema, config) && Ok(schema, config, passes) && Clean(schema, config)
            && !Settled(schema, config, passes)
            && Fits(schema, Filled(schema, config)) && !Ok(schema, Filled(schema, config), passes)
  {
    var rule := Rule(false, map[], [], ["ipv4"], Some(MaybeText(Some("none"))), None);
    var schema, config := Schema(map["Gateway" := rule]), map["Gateway" := MaybeText(None)];
    assert "Gateway" in config && !FieldSettled(schema, "Gateway", config, passes);
    FilledFits(schema, config);
    assert !FieldOk(schema, "Gateway", Filled(schema, config), passes);
  }
}
