// Which verdicts some order of fields and conditions leads to, read off the record
// itself.
module ConfigVerdicts {
  import opened ConfigFields
  import opened Wrappers

  // This condition refers to a field that is a number.
  predicate Numeric(config: Record, key: string) {
    key in config && (config[key].Number? || (config[key].MaybeNumber? && config[key].maybeNumber.Some?))
  }

  // Whether the field is demanded can be told by looking at its conditions.
  predicate Answerable(rule: Rule, config: Record) {
    Demanded(rule, config) || forall key :: key in rule.requiredIf ==> key in config && !Numeric(config, key)
  }

  predicate AllAnswerable(schema: Schema, config: Record)
    requires Fits(schema, config)
    decreases schema
  {
    forall name :: name in config ==>
      var rule, v := schema.rules[name], config[name];
      && Answerable(rule, config)
      && (Demanded(rule, config) && v.Pointer? && v.target.Some? ==> AllAnswerable(rule.section.value, v.target.value))
  }

  // Apart from being demanded or not, nothing is wrong with the field.
  predicate Allowed(rule: Rule, v: Value, passes: Validator) {
    Lawful(rule, v, if Missing(v) && rule.default.Some? then rule.default.value else v, passes)
  }

  predicate FieldCanReject(schema: Schema, name: string, config: Record, passes: Validator)
    requires Fits(schema, config) && name in config
    decreases schema, 0
  {
    var rule, v := schema.rules[name], config[name];
    || (!rule.required && exists key :: key in rule.requiredIf && key !in config)
    || (Demanded(rule, config) && Missing(v))
    || (Answerable(rule, config) && !Allowed(rule, v, passes))
    || (Demanded(rule, config) && v.Pointer? && v.target.Some? && CanReject(rule.section.value, v.target.value, passes))
  }

  predicate CanReject(schema: Schema, config: Record, passes: Validator)
    requires Fits(schema, config)
    decreases schema, 1
  {
    exists name :: name in config && FieldCanReject(schema, name, config, passes)
  }

  predicate FieldCanCrash(schema: Schema, name: string, config: Record)
    requires Fits(schema, config) && name in config
    decreases schema, 0
  {
    var rule, v := schema.rules[name], config[name];
    || (!rule.required && exists key :: key in rule.requiredIf && Numeric(config, key))
    || (Demanded(rule, config) && rule.oneOf == [] && rule.checks == []
        && (v.Inline? || (v.Pointer? && v.target.Some? && CanCrash(rule.section.value, v.target.value))))
  }

  predicate CanCrash(schema: Schema, config: Record)
    requires Fits(schema, config)
    decreases schema, 1
  {
    exists name :: name in config && FieldCanCrash(schema, name, config)
  }

  // ------------------------------------------------------------------ conditions

  lemma SignsPossible(rule: Rule, config: Record)
    ensures MaySign(rule, config, Hit) <==> Demanded(rule, config)
    ensures MaySign(rule, config, Unknown) <==>
              !rule.required && exists key :: key in rule.requiredIf && key !in config
    ensures MaySign(rule, config, Broken) <==>
              !rule.required && exists key :: key in rule.requiredIf && Numeric(config, key)
    ensures MaySign(rule, config, Hit) || MaySign(rule, config, Miss) <==> Answerable(rule, config)
  {
    assert forall key :: key in rule.requiredIf ==>
      ((Look(config, key, rule.requiredIf[key]) == Unknown) <==> key !in config);
    assert forall key :: key in rule.requiredIf ==>
      ((Look(config, key, rule.requiredIf[key]) == Broken) <==> Numeric(config, key));
    NeededIsDemanded(rule, config);
  }

  lemma AllowedIsOk(schema: Schema, name: string, config: Record, passes: Validator)
    requires Fits(schema, config) && name in config
    ensures var rule, v := schema.rules[name], config[name];
            Allowed(rule, v, passes) <==>
              OneOfOk(rule.oneOf, Defaulted(rule, v)) && (IsEmpty(v) || ChecksOk(rule.checks, v, passes))
  {
    EmptyIsMissing(config[name]);
    LawfulIsOk(schema.rules[name], config[name], Defaulted(schema.rules[name], config[name]), passes);
  }

  // --------------------------------------------------------------------- verdicts

  lemma {:induction false} FieldAcceptedExactly(schema: Schema, name: string, config: Record, passes: Validator)
    requires Fits(schema, config) && name in config
    ensures var rule, v := schema.rules[name], config[name];
            FieldMay(schema, name, config, passes, Accepted) <==>
              && FieldOk(schema, name, config, passes) && Answerable(rule, config)
              && (Demanded(rule, config) && v.Pointer? && v.target.Some? ==>
                    AllAnswerable(rule.section.value, v.target.value))
    decreases schema, 0
  {
    var rule, v := schema.rules[name], config[name];
    SignsPossible(rule, config);
    NeededIsDemanded(rule, config);
    if v.Pointer? && v.target.Some? { OkExactly(rule.section.value, v.target.value, passes); }
  }

  lemma {:induction false} OkExactly(schema: Schema, config: Record, passes: Validator)
    requires Fits(schema, config)
    ensures May(schema, config, passes, Accepted) <==> Ok(schema, config, passes) && AllAnswerable(schema, config)
    decreases schema, 1
  {
    forall name | name in config
      ensures var rule, v := schema.rules[name], config[name];
              FieldMay(schema, name, config, passes, Accepted) <==>
                && FieldOk(schema, name, config, passes) && Answerable(rule, config)
                && (Demanded(rule, config) && v.Pointer? && v.target.Some? ==>
                      AllAnswerable(rule.section.value, v.target.value))
    {
      FieldAcceptedExactly(schema, name, config, passes);
    }
  }

  // Some order accepts the record exactly when there is a lawful record for it to
  // become and the conditions can be answered.
  lemma AcceptedExactly(schema: Schema, config: Record, passes: Validator)
    requires Fits(schema, config)
    ensures May(schema, config, passes, Accepted)
       <==> AllAnswerable(schema, config) && exists r :: LawfulRecord(schema, config, r, passes)
  {
    OkExactly(schema, config, passes);
    LawfulExactly(schema, config, Filled(schema, config), passes);
    if r :| LawfulRecord(schema, config, r, passes) { LawfulExactly(schema, config, r, passes); }
  }

  // The texts a field holds.
  function TextsOf(v: Value): seq<string> {
    match v
    case Text(s) => [s]
    case MaybeText(Some(s)) => [s]
    case Texts(items) => items
    case _ => []
  }

  lemma UnlistedNotLawful(rule: Rule, v: Value, w: Value, passes: Validator)
    requires rule.oneOf != [] && TextsOf(v) != [] && forall s :: s in TextsOf(v) ==> s !in rule.oneOf
    ensures !Lawful(rule, v, w, passes)
  {
    ListedIsOneOf(rule.oneOf, TextsOf(v));
  }

  // A field with texts, all of them outside its list, keeps the record from being
  // accepted in whatever order it is looked at.
  lemma UnlistedNeverAccepted(schema: Schema, name: string, config: Record, passes: Validator)
    requires Fits(schema, config) && name in config && schema.rules[name].oneOf != []
    requires TextsOf(config[name]) != [] && forall s :: s in TextsOf(config[name]) ==> s !in schema.rules[name].oneOf
    ensures !May(schema, config, passes, Accepted)
  {
    AcceptedExactly(schema, config, passes);
    if r :| LawfulRecord(schema, config, r, passes) {
      assert LawfulField(schema, name, config, r[name], passes);
      UnlistedNotLawful(schema.rules[name], config[name], r[name], passes);
    }
  }

  lemma {:induction false} FieldRejectedExactly(schema: Schema, name: string, config: Record, passes: Validator)
    requires Fits(schema, config) && name in config
    ensures FieldMay(schema, name, config, passes, Rejected) <==> FieldCanReject(schema, name, config, passes)
    decreases schema, 0
  {
    var rule, v := schema.rules[name], config[name];
    SignsPossible(rule, config);
    AllowedIsOk(schema, name, config, passes);
    EmptyIsMissing(v);
    if v.Pointer? && v.target.Some? { RejectedExactly(rule.section.value, v.target.value, passes); }
  }

  // Some order rejects the record exactly when a condition names no field, a demanded
  // field is missing, or a field is not allowed what it holds, here or in a record
  // that a demanded field points to.
  lemma {:induction false} RejectedExactly(schema: Schema, config: Record, passes: Validator)
    requires Fits(schema, config)
    ensures May(schema, config, passes, Rejected) <==> CanReject(schema, config, passes)
    decreases schema, 1
  {
    forall name | name in config
      ensures FieldMay(schema, name, config, passes, Rejected) <==> FieldCanReject(schema, name, config, passes)
    {
      FieldRejectedExactly(schema, name, config, passes);
    }
  }

  lemma {:induction false} FieldCrashedExactly(schema: Schema, name: string, config: Record, passes: Validator)
    requires Fits(schema, config) && name in config
    ensures FieldMay(schema, name, config, passes, Crashed) <==> FieldCanCrash(schema, name, config)
    decreases schema, 0
  {
    var rule, v := schema.rules[name], config[name];
    SignsPossible(rule, config);
    if v.Pointer? && v.target.Some? { CrashedExactly(rule.section.value, v.target.value, passes); }
  }

  // Some order crashes on the record exactly when a condition names a number or a
  // demanded field is held by value, here or in a record that a demanded field
  // points to.
  lemma {:induction false} CrashedExactly(schema: Schema, config: Record, passes: Validator)
    requires Fits(schema, config)
    ensures May(schema, config, passes, Crashed) <==> CanCrash(schema, config)
    decreases schema, 1
  {
    forall name | name in config
      ensures FieldMay(schema, name, config, passes, Crashed) <==> FieldCanCrash(schema, name, config)
    {
      FieldCrashedExactly(schema, name, config, passes);
    }
  }
}
