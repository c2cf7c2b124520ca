/** Runtime configuration rows and the rules their values must obey. */
module ConfigRules {
  import opened Digits
  import opened Keyspace

  datatype ConfigType = Int | Bool | Text | Duration | Json | Unknown(name: string)

  /**
   * What the validation document of a row says, once parsed: numeric bounds, and the list of allowed
   * values, where an item that is not a string is None.
   */
  datatype Rules = Rules(min: Option<real>, max: Option<real>, allowed: Option<seq<Option<string>>>)

  /** The duration and JSON syntaxes of the standard library, which this model does not spell out. */
  datatype Formats = Formats(isDuration: string -> bool, isJson: string -> bool)

  /** What never changes about a row, as opposed to its value and version. */
  datatype Spec = Spec(scope: string, kind: ConfigType, defaultValue: string, rules: Rules)

  datatype Row = Row(spec: Spec, value: string, editable: bool, version: int)

  /** strconv.Atoi on a 64-bit platform: an optional sign, digits, and a value that fits in 64 bits. */
  function ParseInt(s: string): Option<int> {
    var digits := if s != "" && (s[0] == '+' || s[0] == '-') then s[1..] else s;
    if digits == "" || exists i :: 0 <= i < |digits| && !IsDigit(digits[i]) then None else
      var n := if s[0] == '-' then -DigitsValue(digits) else DigitsValue(digits);
      if -0x8000_0000_0000_0000 <= n < 0x8000_0000_0000_0000 then Some(n) else None
  }

  /** The decimal form of a number, with or without a sign, is read back if it fits in 64 bits and refused otherwise. */
  lemma ParseIntReadsBack(n: int)
    requires n >= 0
    ensures ParseInt(Decimal(n)) == if n < 0x8000_0000_0000_0000 then Some(n) else None
    ensures ParseInt("+" + Decimal(n)) == if n < 0x8000_0000_0000_0000 then Some(n) else None
    ensures ParseInt("-" + Decimal(n)) == if n <= 0x8000_0000_0000_0000 then Some(-n) else None
  {
    DecimalReadBack(n);
    var digits := Decimal(n);
    assert IsDigit(digits[0]);
    assert ("+" + digits)[1..] == digits == ("-" + digits)[1..];
  }

  /** strconv.ParseBool. */
  predicate IsBool(s: string) {
    s in {"1", "t", "T", "TRUE", "true", "True", "0", "f", "F", "FALSE", "false", "False"}
  }

  predicate WithinBounds(rules: Rules, n: int) {
    && (rules.min.Some? ==> rules.min.value <= n as real)
    && (rules.max.Some? ==> n as real <= rules.max.value)
  }

  predicate Allowed(rules: Rules, value: string) {
    rules.allowed.None? || rules.allowed.value == [] || Some(value) in rules.allowed.value
  }

  /** Whether `value` may be stored in a row of this kind with these rules. */
  predicate Accepts(f: Formats, spec: Spec, value: string) {
    match spec.kind
    case Int => ParseInt(value).Some? && WithinBounds(spec.rules, ParseInt(value).value)
    case Bool => IsBool(value)
    case Text => Allowed(spec.rules, value)
    case Duration => value != "" && f.isDuration(value)
    case Json => value != "" && f.isJson(value)
    case Unknown(_) => false
  }

  method ValidateEnum(rules: Rules, value: string) returns (ok: bool)
    ensures ok == Allowed(rules, value)
  {
    if rules.allowed.None? || rules.allowed.value == [] { return true; }
    var items := rules.allowed.value;
    for i := 0 to |items|
      invariant Some(value) !in items[..i]
    {
      if items[i].Some? && value == items[i].value { return true; }
    }
    assert items[..|items|] == items;
    return false;
  }

  method ValidateNumber(rules: Rules, n: int) returns (ok: bool)
    ensures ok == WithinBounds(rules, n)
  {
    if rules.min.Some? && n as real < rules.min.value { return false; }
    if rules.max.Some? && n as real > rules.max.value { return false; }
    return true;
  }

  /** The source's validator: an empty value is refused first, except for text. */
  method ValidateValue(f: Formats, spec: Spec, value: string) returns (ok: bool)
    ensures ok == Accepts(f, spec, value)
    ensures value == "" && spec.kind != Text ==> !ok
    ensures value != "" ==>
              match spec.kind
              case Int =>
                ok <==> && ParseInt(value).Some?
                        && (spec.rules.min.Some? ==> spec.rules.min.value <= ParseInt(value).value as real)
                        && (spec.rules.max.Some? ==> ParseInt(value).value as real <= spec.rules.max.value)
              case Bool => ok <==> value in {"1", "t", "T", "TRUE", "true", "True", "0", "f", "F", "FALSE", "false", "False"}
              case Text => true
              case Duration => ok == f.isDuration(value)
              case Json => ok == f.isJson(value)
              case Unknown(_) => !ok
    ensures spec.kind == Text ==>
              (ok <==> spec.rules.allowed.None? || spec.rules.allowed.value == [] || Some(value) in spec.rules.allowed.value)
  {
    if value == "" && spec.kind != Text { return false; }
    match spec.kind
    case Int =>
      var parsed := ParseInt(value);
      if parsed.None? { return false; }
      ok := ValidateNumber(spec.rules, parsed.value);
    case Bool => ok := IsBool(value);
    case Text => ok := ValidateEnum(spec.rules, value);
    case Duration => ok := f.isDuration(value);
    case Json => ok := f.isJson(value);
    case Unknown(_) => ok := false;
  }
}
