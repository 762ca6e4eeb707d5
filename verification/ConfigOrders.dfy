// The order in which a validation visits the fields of a record and the conditions
// of each field, made explicit.  Which verdicts some order leads to is decided field
// by field, and the verdict is the same in every order exactly when one verdict is
// possible only.
module ConfigOrders {
  import opened ConfigFields
  import opened Wrappers

  // The order of the fields and, for each field, that of its conditions and the
  // orders used inside the record it points to.
  datatype Order = Order(fields: seq<string>, parts: map<string, Part>)

  datatype Part = Part(keys: seq<string>, inner: Option<Order>)

  predicate LeadsOn(v: Value) { v.Pointer? && v.target.Some? }

  ghost predicate PartFits(schema: Schema, name: string, config: Record, part: Part)
    requires Fits(schema, config) && name in config
    decreases schema, 0
  {
    var rule, v := schema.rules[name], config[name];
    && OrderOf(part.keys, rule.requiredIf.Keys)
    && (LeadsOn(v) ==> part.inner.Some? && OrderFits(rule.section.value, v.target.value, part.inner.value))
  }

  ghost predicate OrderFits(schema: Schema, config: Record, o: Order)
    requires Fits(schema, config)
    decreases schema, 1
  {
    && OrderOf(o.fields, config.Keys) && o.parts.Keys == config.Keys
    && forall name :: name in config ==> PartFits(schema, name, config, o.parts[name])
  }

  function SignIn(rule: Rule, config: Record, keys: seq<string>): Sign
    requires forall key :: key in keys ==> key in rule.requiredIf
  {
    if rule.required then Hit else FirstSign(config, rule.requiredIf, keys)
  }

  // The verdict on one field, its conditions looked at in the given order.
  ghost function FieldVerdict(schema: Schema, name: string, config: Record, passes: Validator, part: Part): Verdict
    requires Fits(schema, config) && name in config && PartFits(schema, name, config, part)
    decreases schema, 0, 0
  {
    var rule, v := schema.rules[name], config[name];
    match Judge(rule, v, passes, SignIn(rule, config, part.keys))
    case Final(end) => end
    case AskInner => Validate(rule.section.value, v.target.value, passes, part.inner.value)
  }

  // The first verdict that is not an acceptance.
  ghost function ValidateFrom(schema: Schema, config: Record, passes: Validator, o: Order, names: seq<string>): Verdict
    requires Fits(schema, config) && OrderFits(schema, config, o) && forall name :: name in names ==> name in config
    decreases schema, 1, |names|
  {
    if names == [] then Accepted
    else
      var verdict := FieldVerdict(schema, names[0], config, passes, o.parts[names[0]]);
      if verdict != Accepted then verdict else ValidateFrom(schema, config, passes, o, names[1..])
  }

  ghost function Validate(schema: Schema, config: Record, passes: Validator, o: Order): Verdict
    requires Fits(schema, config) && OrderFits(schema, config, o)
    decreases schema, 2, 0
  {
    ValidateFrom(schema, config, passes, o, o.fields)
  }

  // ------------------------------------------------- an order leads to what may be

  lemma {:induction false} FromShows(schema: Schema, config: Record, passes: Validator, o: Order, names: seq<string>)
    requires Fits(schema, config) && OrderFits(schema, config, o) && forall name :: name in names ==> name in config
    ensures var verdict := ValidateFrom(schema, config, passes, o, names);
            if verdict.Accepted?
            then forall name :: name in names ==> FieldVerdict(schema, name, config, passes, o.parts[name]) == Accepted
            else exists name :: name in names && FieldVerdict(schema, name, config, passes, o.parts[name]) == verdict
    decreases |names|
  {
    if names == [] {
    } else {
      FromShows(schema, config, passes, o, names[1..]);
      assert forall name :: name in names <==> name == names[0] || name in names[1..];
    }
  }

  lemma {:induction false} FieldVerdictMay(schema: Schema, name: string, config: Record, passes: Validator, part: Part)
    requires Fits(schema, config) && name in config && PartFits(schema, name, config, part)
    ensures FieldMay(schema, name, config, passes, FieldVerdict(schema, name, config, passes, part))
    decreases schema, 0
  {
    var rule, v := schema.rules[name], config[name];
    var sign := SignIn(rule, config, part.keys);
    FirstSignShows(config, rule.requiredIf, part.keys);
    assert MaySign(rule, config, sign);
    if Judge(rule, v, passes, sign).AskInner? {
      VerdictMay(rule.section.value, v.target.value, passes, part.inner.value);
    }
    assert FieldMayAt(schema, name, config, passes, FieldVerdict(schema, name, config, passes, part), sign);
  }

  lemma {:induction false} VerdictMay(schema: Schema, config: Record, passes: Validator, o: Order)
    requires Fits(schema, config) && OrderFits(schema, config, o)
    ensures May(schema, config, passes, Validate(schema, config, passes, o))
    decreases schema, 1
  {
    FromShows(schema, config, passes, o, o.fields);
    forall name | name in config
      ensures FieldMay(schema, name, config, passes, FieldVerdict(schema, name, config, passes, o.parts[name]))
    {
      FieldVerdictMay(schema, name, config, passes, o.parts[name]);
    }
  }

  // ------------------------------------------------- what may be, some order leads to

  // Orders for one field that lead to the given verdict on it.
  ghost predicate FieldLeads(schema: Schema, name: string, config: Record, passes: Validator, verdict: Verdict,
                             part: Part)
    requires Fits(schema, config) && name in config
  {
    PartFits(schema, name, config, part) && FieldVerdict(schema, name, config, passes, part) == verdict
  }

  lemma SignAttained(rule: Rule, config: Record, sign: Sign) returns (keys: seq<string>)
    requires MaySign(rule, config, sign)
    ensures OrderOf(keys, rule.requiredIf.Keys) && SignIn(rule, config, keys) == sign
  {
    if rule.required || sign == Miss {
      keys := Listing(rule.requiredIf.Keys);
      FirstSignShows(config, rule.requiredIf, keys);
    } else {
      var key :| key in rule.requiredIf && Look(config, key, rule.requiredIf[key]) == sign;
      keys := OrderFrom(config, rule.requiredIf, key);
    }
  }

  lemma {:induction false} SomeVerdict(schema: Schema, config: Record, passes: Validator) returns (verdict: Verdict)
    requires Fits(schema, config)
    ensures May(schema, config, passes, verdict)
    decreases schema, 1
  {
    if forall name :: name in config ==> FieldMay(schema, name, config, passes, Accepted) {
      verdict := Accepted;
    } else {
      var name :| name in config && !FieldMay(schema, name, config, passes, Accepted);
      verdict := SomeFieldVerdict(schema, name, config, passes);
    }
  }

  lemma {:induction false} FieldAttained(schema: Schema, name: string, config: Record, passes: Validator,
                                         verdict: Verdict)
    returns (part: Part)
    requires Fits(schema, config) && name in config && FieldMay(schema, name, config, passes, verdict)
    ensures FieldLeads(schema, name, config, passes, verdict, part)
    decreases schema, 0
  {
    var rule, v := schema.rules[name], config[name];
    var sign: Sign :| MaySign(rule, config, sign) && FieldMayAt(schema, name, config, passes, verdict, sign);
    var keys := SignAttained(rule, config, sign);
    part := Part(keys, None);
    if LeadsOn(v) {
      var end := verdict;
      if Judge(rule, v, passes, sign).Final? {
        end := SomeVerdict(rule.section.value, v.target.value, passes);
      }
      var inner := Attained(rule.section.value, v.target.value, passes, end);
      part := Part(keys, Some(inner));
    }
  }

  lemma SomeSign(rule: Rule, config: Record) returns (sign: Sign)
    ensures MaySign(rule, config, sign)
  {
    var keys := Listing(rule.requiredIf.Keys);
    FirstSignShows(config, rule.requiredIf, keys);
    sign := SignIn(rule, config, keys);
  }

  // Some verdict is always possible, on a field and on a record.
  lemma {:induction false} SomeFieldVerdict(schema: Schema, name: string, config: Record, passes: Validator)
    returns (verdict: Verdict)
    requires Fits(schema, config) && name in config
    ensures FieldMay(schema, name, config, passes, verdict)
    decreases schema, 0
  {
    var rule, v := schema.rules[name], config[name];
    var sign := SomeSign(rule, config);
    match Judge(rule, v, passes, sign) {
      case Final(end) => verdict := end;
      case AskInner => verdict := SomeVerdict(rule.section.value, v.target.value, passes);
    }
    assert FieldMayAt(schema, name, config, passes, verdict, sign);
  }

  // A verdict for every field that it may end with.
  ghost predicate Wish(schema: Schema, config: Record, passes: Validator, wish: map<string, Verdict>)
    requires Fits(schema, config)
  {
    wish.Keys == config.Keys && forall name :: name in config ==> FieldMay(schema, name, config, passes, wish[name])
  }

  lemma {:induction false} OrdersFor(schema: Schema, config: Record, passes: Validator, wish: map<string, Verdict>)
    returns (parts: map<string, Part>)
    requires Fits(schema, config) && Wish(schema, config, passes, wish)
    ensures parts.Keys == config.Keys
    ensures forall name :: name in config ==> FieldLeads(schema, name, config, passes, wish[name], parts[name])
    decreases schema, 1
  {
    parts := map[];
    var rest := config.Keys;
    while rest != {}
      invariant rest <= config.Keys && parts.Keys == config.Keys - rest
      invariant forall name :: name in parts ==> FieldLeads(schema, name, config, passes, wish[name], parts[name])
      decreases rest
    {
      var name :| name in rest;
      var part := FieldAttained(schema, name, config, passes, wish[name]);
      parts := parts[name := part];
      rest := rest - {name};
    }
  }

  lemma {:induction false} WishFor(schema: Schema, config: Record, passes: Validator, name: string, verdict: Verdict)
    returns (wish: map<string, Verdict>)
    requires Fits(schema, config) && name in config && FieldMay(schema, name, config, passes, verdict)
    ensures Wish(schema, config, passes, wish) && wish[name] == verdict
    decreases schema, 1
  {
    wish := map[name := verdict];
    var rest := config.Keys - {name};
    while rest != {}
      invariant rest <= config.Keys && wish.Keys == config.Keys - rest && name in wish && wish[name] == verdict
      invariant forall x :: x in wish ==> FieldMay(schema, x, config, passes, wish[x])
      decreases rest
    {
      var x :| x in rest;
      var any := SomeFieldVerdict(schema, x, config, passes);
      wish := wish[x := any];
      rest := rest - {x};
    }
  }

  lemma {:induction false} AcceptedAttained(schema: Schema, config: Record, passes: Validator) returns (o: Order)
    requires Fits(schema, config) && May(schema, config, passes, Accepted)
    ensures OrderFits(schema, config, o) && Validate(schema, config, passes, o) == Accepted
    decreases schema, 2
  {
    var fields := Listing(config.Keys);
    var parts := OrdersFor(schema, config, passes, map name | name in config :: Accepted);
    o := Order(fields, parts);
    FromShows(schema, config, passes, o, fields);
  }

  lemma OrderWith(all: set<string>, first: string) returns (names: seq<string>)
    requires first in all
    ensures OrderOf(names, all) && names != [] && names[0] == first
  {
    var rest := Listing(all - {first});
    names := [first] + rest;
  }

  lemma FirstEnds(schema: Schema, config: Record, passes: Validator, o: Order, names: seq<string>, verdict: Verdict)
    requires Fits(schema, config) && OrderFits(schema, config, o) && names != []
    requires forall name :: name in names ==> name in config
    requires verdict != Accepted && FieldLeads(schema, names[0], config, passes, verdict, o.parts[names[0]])
    ensures ValidateFrom(schema, config, passes, o, names) == verdict
  {}

  // The field in question is visited first.
  lemma {:induction false} FaultAttained(schema: Schema, name: string, config: Record, passes: Validator,
                                         verdict: Verdict)
    returns (o: Order)
    requires Fits(schema, config) && name in config
    requires FieldMay(schema, name, config, passes, verdict) && verdict != Accepted
    ensures OrderFits(schema, config, o) && Validate(schema, config, passes, o) == verdict
    decreases schema, 2
  {
    var wish := WishFor(schema, config, passes, name, verdict);
    var parts := OrdersFor(schema, config, passes, wish);
    var fields := OrderWith(config.Keys, name);
    o := Order(fields, parts);
    FirstEnds(schema, config, passes, o, fields, verdict);
  }

  lemma {:induction false} Attained(schema: Schema, config: Record, passes: Validator, verdict: Verdict)
    returns (o: Order)
    requires Fits(schema, config) && May(schema, config, passes, verdict)
    ensures OrderFits(schema, config, o) && Validate(schema, config, passes, o) == verdict
    decreases schema, 3
  {
    if verdict == Accepted {
      o := AcceptedAttained(schema, config, passes);
    } else {
      var name :| name in config && FieldMay(schema, name, config, passes, verdict);
      o := FaultAttained(schema, name, config, passes, verdict);
    }
  }

  // ------------------------------------------------------------------- the results

  // Exactly the verdicts that May names are reached in some order.
  lemma ReachedExactly(schema: Schema, config: Record, passes: Validator, verdict: Verdict)
    requires Fits(schema, config)
    ensures May(schema, config, passes, verdict)
       <==> exists o :: OrderFits(schema, config, o) && Validate(schema, config, passes, o) == verdict
  {
    if May(schema, config, passes, verdict) {
      var o := Attained(schema, config, passes, verdict);
    }
    if o :| OrderFits(schema, config, o) && Validate(schema, config, passes, o) == verdict {
      VerdictMay(schema, config, passes, o);
    }
  }

  ghost predicate VerdictFixed(schema: Schema, config: Record, passes: Validator)
    requires Fits(schema, config)
  {
    forall o, o' :: OrderFits(schema, config, o) && OrderFits(schema, config, o') ==>
      Validate(schema, config, passes, o) == Validate(schema, config, passes, o')
  }

  ghost predicate OnlyOne(schema: Schema, config: Record, passes: Validator, verdict: Verdict)
    requires Fits(schema, config)
  {
    May(schema, config, passes, verdict) && forall other :: other != verdict ==> !May(schema, config, passes, other)
  }

  // The verdict on a whole record does not depend on any order exactly when one of
  // the three is possible and the other two are not.
  lemma FixedExactly(schema: Schema, config: Record, passes: Validator)
    requires Fits(schema, config)
    ensures VerdictFixed(schema, config, passes) <==> exists verdict :: OnlyOne(schema, config, passes, verdict)
  {
    var some := SomeVerdict(schema, config, passes);
    if VerdictFixed(schema, config, passes) {
      var o := Attained(schema, config, passes, some);
      forall other | May(schema, config, passes, other) ensures other == some {
        var o' := Attained(schema, config, passes, other);
      }
      assert OnlyOne(schema, config, passes, some);
    }
    if verdict :| OnlyOne(schema, config, passes, verdict) {
      forall o, o' | OrderFits(schema, config, o) && OrderFits(schema, config, o')
        ensures Validate(schema, config, passes, o) == Validate(schema, config, passes, o')
      {
        VerdictMay(schema, config, passes, o);
        VerdictMay(schema, config, passes, o');
      }
    }
  }

  // A field that is required when Mode is static, or when a field that does not
  // exist is: it depends on which condition is looked at first.
  const TWO_MODES: Rule := Rule(false, map["Mode" := "static", "Modus" := "static"], [], [], None, None)
  const PLAIN: Rule := Rule(false, map[], [], [], None, None)

  function ModeSchema(): Schema { Schema(map["Mode" := PLAIN, "Server" := TWO_MODES]) }

  function ModeRecord(): Record { map["Mode" := Text("static"), "Server" := Text("a")] }

  lemma EitherMode(passes: Validator)
    ensures Fits(ModeSchema(), ModeRecord())
    ensures FieldMay(ModeSchema(), "Server", ModeRecord(), passes, Accepted)
    ensures FieldMay(ModeSchema(), "Server", ModeRecord(), passes, Rejected)
  {
    var config := ModeRecord();
    assert Look(config, "Mode", "static") == Hit && Look(config, "Modus", "static") == Unknown;
    assert "Mode" in TWO_MODES.requiredIf && "Modus" in TWO_MODES.requiredIf;
    assert MaySign(TWO_MODES, config, Hit) && MaySign(TWO_MODES, config, Unknown);
    assert FieldMayAt(ModeSchema(), "Server", config, passes, Accepted, Hit);
    assert FieldMayAt(ModeSchema(), "Server", config, passes, Rejected, Unknown);
  }

  lemma PlainField(passes: Validator)
    requires Fits(ModeSchema(), ModeRecord())
    ensures FieldMay(ModeSchema(), "Mode", ModeRecord(), passes, Accepted)
  {
    assert MaySign(PLAIN, ModeRecord(), Miss);
    assert FieldMayAt(ModeSchema(), "Mode", ModeRecord(), passes, Accepted, Miss);
  }

  // Looked at in one order the record is accepted, in the other rejected.
  lemma OrderDecides(passes: Validator)
    ensures Fits(ModeSchema(), ModeRecord()) && !VerdictFixed(ModeSchema(), ModeRecord(), passes)
    ensures May(ModeSchema(), ModeRecord(), passes, Accepted) && May(ModeSchema(), ModeRecord(), passes, Rejected)
  {
    EitherMode(passes);
    PlainField(passes);
    forall name | name in ModeRecord() ensures FieldMay(ModeSchema(), name, ModeRecord(), passes, Accepted) {
      assert name == "Mode" || name == "Server";
    }
    assert May(ModeSchema(), ModeRecord(), passes, Accepted) && May(ModeSchema(), ModeRecord(), passes, Rejected);
    FixedExactly(ModeSchema(), ModeRecord(), passes);
  }
}
