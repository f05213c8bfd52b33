/** Negative numbers in the configuration file: `std::stoull` takes the sign and wraps around. */
module ConfigNumbers {
  import opened Wrappers
  import opened Text
  import opened ConfigLoader
  import opened ConfigRoundTrip

  /** A value with a minus sign is read exactly when decimal digits follow it whose value fits; the
      result is the negation modulo the width of the type. */
  lemma NegativeSize(value: string)
    requires SkipSpace(Trim(value)) != [] && SkipSpace(Trim(value))[0] == '-'
    ensures
      var digits := SkipSpace(Trim(value))[1..];
      if digits != [] && AllDigits(digits) && NumberOf(digits) <= SIZE_MAX then
        && ParseSize(value).Some? && ParseSize(value).value <= SIZE_MAX
        && (ParseSize(value).value + NumberOf(digits)) % (SIZE_MAX + 1) == 0
      else ParseSize(value) == None
  {
  }

  /** What is read for `-k`. */
  function Negated(k: nat): nat
    requires k <= SIZE_MAX
  {
    if k == 0 then 0 else SIZE_MAX + 1 - k
  }

  lemma SignedIsTrimmed(digits: string)
    requires digits != [] && AllDigits(digits)
    ensures GoodValue("-" + digits) && SkipSpace(Trim("-" + digits)) == "-" + digits
    ensures ("-" + digits)[0] == '-' && ("-" + digits)[1..] == digits
  {
    var value := "-" + digits;
    assert value[|value| - 1] == digits[|digits| - 1] && digits[|digits| - 1] in digits;
    TrimOfTrimmed(value);
  }

  lemma NegatedIsRead(k: nat)
    ensures GoodValue("-" + Decimal(k))
    ensures ParseSize("-" + Decimal(k)) == if k <= SIZE_MAX then Some(Negated(k)) else None
  {
    SignedIsTrimmed(Decimal(k));
  }

  lemma MinusOneIsRead()
    ensures ParseSize("-1") == Some(SIZE_MAX)
  {
    assert "1"[..0] == [] && NumberOf("1") == 1;
    assert "-1"[0] == '-' && "-1"[1..] == "1";
    TrimOfTrimmed("-1");
  }

  function WithNumber(c: AppConfig, key: Key, n: nat): AppConfig {
    match key
    case SchemaVersion => c.(schemaVersion := n)
    case MaxSnapshots => c.(snapper := c.snapper.(maxSnapshots := n))
    case Retain => c.(retention := n)
    case DebounceSeconds => c.(automation := c.automation.(debounceSeconds := n))
    case _ => c
  }

  lemma NegativeAssigned(c: AppConfig, key: Key, k: nat)
    requires IsNumber(key)
    ensures AssignKey(c, key, "-" + Decimal(k)) == if k <= SIZE_MAX then Some(WithNumber(c, key, Negated(k))) else None
  {
    NegatedIsRead(k);
  }

  /** The line `key = -k` in the section of the key. */
  lemma NegativeLine(r: Reading, key: Key, k: nat)
    requires IsNumber(key) && r.section == SectionName(SectionOf(key))
    ensures LoadLine(r, KeyLine(Name(key), "-" + Decimal(k))) ==
      if k <= SIZE_MAX then Some(r.(config := WithNumber(r.config, key, Negated(k)))) else None
  {
    NamesAreRead(key);
    SectionNameIsRead(SectionOf(key));
    NegatedIsRead(k);
    PairLine(Name(key), "-" + Decimal(k));
    NegativeAssigned(r.config, key, k);
  }

  /** The negative numbers the validation lets through: all of them for the retention and the number
      of snapshots, only those that wrap to a small number for the other two. */
  predicate WrapsUnnoticed(key: Key, k: nat) {
    match key
    case SchemaVersion => k == SIZE_MAX
    case DebounceSeconds => k == 0 || k >= SIZE_MAX + 1 - 3600
    case _ => true
  }

  lemma WrappedIsAccepted(c: AppConfig, key: Key, k: nat)
    requires Accepted(c) && IsNumber(key) && k <= SIZE_MAX
    ensures Accepted(WithNumber(c, key, Negated(k))) <==> WrapsUnnoticed(key, k)
  {
  }

  /** Whatever accepted file a negative number is appended to, it is accepted with the wrapped
      number exactly when it fits the type and wraps unnoticed. */
  lemma NegativeNumberInFile(lines: seq<string>, key: Key, k: nat)
    requires OneLineEach(lines) && Loaded(Join(lines)).Some? && IsNumber(key)
    ensures
      var c, section := Loaded(Join(lines)).value, HeaderText(SectionOf(key));
      Loaded(Join(lines + [section] + [KeyLine(Name(key), "-" + Decimal(k))])) ==
        if k <= SIZE_MAX && WrapsUnnoticed(key, k) then Some(WithNumber(c, key, Negated(k))) else None
  {
    var header, line := HeaderText(SectionOf(key)), KeyLine(Name(key), "-" + Decimal(k));
    var all := lines + [header] + [line];
    HeaderIsLine(SectionOf(key));
    NegatedIsRead(k);
    NamesAreRead(key);
    PairIsLine(Name(key), "-" + Decimal(k));
    LinesOfJoin(lines);
    LinesOfJoin(all);
    var start := Reading(DEFAULT, []);
    var r := LoadLines(start, lines).value;
    LoadAppend(start, lines, [header]);
    LoadHeader(r, SectionOf(key));
    LoadOneMore(start, lines + [header], line);
    NegativeLine(r.(section := SectionName(SectionOf(key))), key, k);
    if k <= SIZE_MAX { WrappedIsAccepted(r.config, key, k); }
  }

  /** `retain = -1` keeps every backup there will ever be. */
  lemma NegativeRetention()
    ensures Loaded(Join([HeaderText(InBackups)] + [KeyLine("retain", "-" + Decimal(1))])) ==
      Some(DEFAULT.(retention := SIZE_MAX))
  {
    DefaultIsAccepted();
    assert Join([]) == "" && Lines("") == [];
    NegativeNumberInFile([], Retain, 1);
    assert [] + [HeaderText(InBackups)] == [HeaderText(InBackups)];
  }
}
