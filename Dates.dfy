/** Partial calendar dates (year, year-month, full date) and the three
  * `DateTimeFormatter` patterns the adapters parse them with, resolved as
  * `parseBest(text, LocalDate::from, YearMonth::from, Year::from)` under the
  * SMART resolver. These are the reduced-accuracy and complete extended
  * calendar-date forms of ISO 8601:2004, sections 4.1.2.2 and 4.1.2.3, plus
  * the dotted day-first forms. */
module Dates {
  import opened Wrappers
  import opened JavaStrings

  datatype PartialDate =
    | Year(year: int)
    | YearMonth(year: int, month: int)
    | FullDate(year: int, month: int, day: int)

  /** Largest year of era the resolver accepts. */
  const MaxYear: int := 999_999_999

  predicate IsLeap(y: int)
  {
    y % 4 == 0 && (y % 100 != 0 || y % 400 == 0)
  }

  function LengthOfMonth(y: int, m: int): int
  {
    if m == 2 then (if IsLeap(y) then 29 else 28)
    else if m == 4 || m == 6 || m == 9 || m == 11 then 30
    else 31
  }

  /** The dates this system can hold: every parse yields a year of era. */
  predicate ValidDate(d: PartialDate)
  {
    1 <= d.year <= MaxYear &&
    (!d.Year? ==> 1 <= d.month <= 12) &&
    (d.FullDate? ==> 1 <= d.day <= LengthOfMonth(d.year, d.month))
  }

  // ---- digits ----

  predicate IsDigit(c: char)
  {
    '0' <= c <= '9'
  }

  predicate AllDigits(s: string)
  {
    forall i :: 0 <= i < |s| ==> IsDigit(s[i])
  }

  function DigitChar(d: nat): char
    requires d < 10
  {
    ('0' as int + d) as char
  }

  function Pow10(n: nat): nat
    ensures Pow10(n) >= 1
  {
    if n == 0 then 1 else 10 * Pow10(n - 1)
  }

  /** Decimal value of a digit string. */
  function ValueOf(s: string): nat
    requires AllDigits(s)
  {
    if s == [] then 0 else 10 * ValueOf(s[..|s| - 1]) + (s[|s| - 1] as int - '0' as int)
  }

  /** `n` printed in exactly `w` digits, zero-padded on the left. */
  function DigitsOf(n: nat, w: nat): (r: string)
    ensures |r| == w && AllDigits(r)
  {
    if w == 0 then [] else DigitsOf(n / 10, w - 1) + [DigitChar(n % 10)]
  }

  lemma {:induction false} ValueOfDigitsOf(n: nat, w: nat)
    requires n < Pow10(w)
    ensures ValueOf(DigitsOf(n, w)) == n
  {
    if w > 0 {
      var s := DigitsOf(n, w);
      assert s[..|s| - 1] == DigitsOf(n / 10, w - 1);
      ValueOfDigitsOf(n / 10, w - 1);
    }
  }

  function NumDigits(n: nat): (k: nat)
    ensures 1 <= k && n < Pow10(k)
    ensures k > 1 ==> n >= Pow10(k - 1)
  {
    if n < 10 then 1 else 1 + NumDigits(n / 10)
  }

  /** `Integer.toString` of a non-negative number. */
  function NatToString(n: nat): (r: string)
    ensures AllDigits(r) && |r| == NumDigits(n)
  {
    DigitsOf(n, NumDigits(n))
  }

  /** Number of consecutive ASCII digits of `s` from `pos`. */
  function DigitRun(s: string, pos: nat): (n: nat)
    requires pos <= |s|
    ensures pos + n <= |s|
    ensures forall i :: pos <= i < pos + n ==> IsDigit(s[i])
    ensures pos + n < |s| ==> !IsDigit(s[pos + n])
    decreases |s| - pos
  {
    if pos == |s| || !IsDigit(s[pos]) then 0 else 1 + DigitRun(s, pos + 1)
  }

  /** Value of the `n` digits of `s` from `start`. */
  function ValueAt(s: string, start: nat, n: nat): nat
    requires start + n <= |s|
    requires forall i :: start <= i < start + n ==> IsDigit(s[i])
  {
    ValueOf(s[start..start + n])
  }

  // ---- patterns ----

  /** The pattern letters used: a literal, `yyyy` (year of era, 4 to 19
    * digits, sign only when wider than 4), `MM` and `dd` (exactly two
    * digits), `M` (one to 19 digits, optional minus sign). */
  datatype Atom = Literal(c: char) | YearOfEra4 | Month2 | MonthVar | Day2

  /** A required element or an optional section `[...]`; a failing optional
    * section is skipped and parsing resumes where it began. The nested
    * `[[a][b]]` of the source behaves as `[a][b]`, since the inner sections
    * never fail. */
  datatype Section = Required(atom: Atom) | Optional(atoms: seq<Atom>)

  /** "yyyy[[-MM][-dd]]" */
  const IsoPattern: seq<Section> :=
    [Required(YearOfEra4), Optional([Literal('-'), Month2]), Optional([Literal('-'), Day2])]

  /** "[[dd.][MM.]]yyyy" */
  const DottedPattern: seq<Section> :=
    [Optional([Day2, Literal('.')]), Optional([Month2, Literal('.')]), Required(YearOfEra4)]

  /** "[[dd.][M.]]yyyy" */
  const DottedShortMonthPattern: seq<Section> :=
    [Optional([Day2, Literal('.')]), Optional([MonthVar, Literal('.')]), Required(YearOfEra4)]

  /** The field values a parse collects before resolution. */
  datatype Fields = Fields(yearOfEra: Option<int>, month: Option<int>, day: Option<int>)

  const NoFields := Fields(None, None, None)

  /** 2^63: the parser keeps 19-digit values below it (above it for a
    * negative value) and otherwise gives back the last digit. */
  const LongLimit: nat := 0x8000_0000_0000_0000

  function Min(a: int, b: int): int
  {
    if a <= b then a else b
  }

  /** `MM` or `dd`: exactly two digits, no sign. */
  function ParseTwoDigits(s: string, pos: nat): (r: Option<nat>)
    requires pos <= |s|
    ensures r.Some? ==> pos + 2 <= |s|
  {
    if pos + 2 <= |s| && IsDigit(s[pos]) && IsDigit(s[pos + 1]) then Some(ValueAt(s, pos, 2)) else None
  }

  /** `yyyy`: the position after it and the year of era. */
  function ParseYearOfEra(s: string, pos: nat): (r: Option<(nat, int)>)
    requires pos <= |s|
    ensures r.Some? ==> pos < r.value.0 <= |s|
  {
    if pos < |s| && s[pos] == '+' then
      // a sign is accepted only in front of more than four digits
      var n := Min(DigitRun(s, pos + 1), 19);
      if n <= 4 then None else Some((pos + 1 + n, ValueAt(s, pos + 1, n)))
    else if pos < |s| && s[pos] == '-' then
      // a negative (or minus zero) year of era never resolves
      None
    else if DigitRun(s, pos) == 4 then
      // without a sign, exactly four digits: a fifth digit is an error
      Some((pos + 4, ValueAt(s, pos, 4)))
    else None
  }

  /** `M`: an optional '-' and one to 19 digits; '+' and minus zero are
    * errors. */
  function ParseMonthVar(s: string, pos: nat): (r: Option<(nat, int)>)
    requires pos <= |s|
    ensures r.Some? ==> pos < r.value.0 <= |s|
  {
    if pos < |s| && s[pos] == '+' then None
    else
      var neg := pos < |s| && s[pos] == '-';
      var start := if neg then pos + 1 else pos;
      var run := DigitRun(s, start);
      if run == 0 then None
      else
        var n := Min(run, 19);
        var v := ValueAt(s, start, n);
        var back := n == 19 && (if neg then v > LongLimit else v >= LongLimit);
        var n', v' := (if back then 18 else n), (if back then v / 10 else v);
        if neg && v' == 0 then None
        else Some((start + n', if neg then -v' else v'))
  }

  /** One element at `pos`: the position after it and the updated fields, or
    * None when it does not match. */
  function ParseAtom(s: string, pos: nat, a: Atom, f: Fields): (r: Option<(nat, Fields)>)
    requires pos <= |s|
    ensures r.Some? ==> pos <= r.value.0 <= |s|
  {
    match a
    case Literal(c) =>
      if pos < |s| && s[pos] == c then Some((pos + 1, f)) else None
    case Month2 =>
      (match ParseTwoDigits(s, pos)
       case None => None
       case Some(v) => Some((pos + 2, f.(month := Some(v)))))
    case Day2 =>
      (match ParseTwoDigits(s, pos)
       case None => None
       case Some(v) => Some((pos + 2, f.(day := Some(v)))))
    case YearOfEra4 =>
      (match ParseYearOfEra(s, pos)
       case None => None
       case Some((p, v)) => Some((p, f.(yearOfEra := Some(v)))))
    case MonthVar =>
      (match ParseMonthVar(s, pos)
       case None => None
       case Some((p, v)) => Some((p, f.(month := Some(v)))))
  }

  function ParseAtoms(s: string, pos: nat, atoms: seq<Atom>, f: Fields): (r: Option<(nat, Fields)>)
    requires pos <= |s|
    ensures r.Some? ==> pos <= r.value.0 <= |s|
    decreases atoms
  {
    if atoms == [] then Some((pos, f))
    else
      match ParseAtom(s, pos, atoms[0], f)
      case None => None
      case Some((p, g)) => ParseAtoms(s, p, atoms[1..], g)
  }

  /** The whole pattern; the text must be consumed completely. */
  function ParseSections(s: string, pos: nat, secs: seq<Section>, f: Fields): Option<Fields>
    requires pos <= |s|
    decreases secs
  {
    if secs == [] then (if pos == |s| then Some(f) else None)
    else
      match secs[0]
      case Required(a) =>
        (match ParseAtom(s, pos, a, f)
         case None => None
         case Some((p, g)) => ParseSections(s, p, secs[1..], g))
      case Optional(atoms) =>
        (match ParseAtoms(s, pos, atoms, f)
         case None => ParseSections(s, pos, secs[1..], f)
         case Some((p, g)) => ParseSections(s, p, secs[1..], g))
  }

  /** SMART resolution of a day that is within 1..31 but past the month's
    * end: it is moved back to the last day of the month. */
  function SmartDay(y: int, m: int, d: int): int
  {
    if m == 4 || m == 6 || m == 9 || m == 11 then Min(d, 30)
    else if m == 2 then Min(d, LengthOfMonth(y, 2))
    else d
  }

  /** Resolution and `parseBest`: a full date when month and day are both
    * present (both must be in range, else the parse fails); a year-month
    * when only a valid month is present; a year otherwise (an out-of-range
    * month without a day falls through to `Year::from`). */
  function Resolve(f: Fields): (r: Option<PartialDate>)
    ensures r.Some? ==> ValidDate(r.value)
  {
    if f.yearOfEra.None? then None
    else
      var y := f.yearOfEra.value;
      if !(1 <= y <= MaxYear) then None
      else if f.month.Some? && f.day.Some? then
        var m, d := f.month.value, f.day.value;
        if 1 <= m <= 12 && 1 <= d <= 31 then Some(FullDate(y, m, SmartDay(y, m, d))) else None
      else if f.month.Some? && 1 <= f.month.value <= 12 then Some(YearMonth(y, f.month.value))
      else Some(Year(y))
  }

  /** `DateTimeFormatter.ofPattern(p).parseBest(...)`, None on a
    * `DateTimeParseException`. */
  function ParseBest(pattern: seq<Section>, s: string): (r: Option<PartialDate>)
    ensures r.Some? ==> ValidDate(r.value)
  {
    match ParseSections(s, 0, pattern, NoFields)
    case None => None
    case Some(f) => Resolve(f)
  }

  // ---- facts about digits ----

  lemma {:induction false} Pow10Monotone(a: nat, b: nat)
    requires a <= b
    ensures Pow10(a) <= Pow10(b)
    decreases b
  {
    if a < b {
      Pow10Monotone(a, b - 1);
    }
  }

  /** `NumDigits` is 4 exactly for the four-digit numbers. */
  lemma NumDigitsFour(n: nat)
    ensures NumDigits(n) == 4 <==> 1000 <= n <= 9999
  {
    var k := NumDigits(n);
    assert Pow10(3) == 1000 && Pow10(4) == 10000;
    if 1000 <= n <= 9999 {
      if k < 4 { Pow10Monotone(k, 3); }
      if k > 4 { Pow10Monotone(4, k - 1); }
    }
  }

  /** The digit count of a year above 9999 and within range is 5 to 9. */
  lemma NumDigitsWideYear(y: nat)
    requires 9999 < y <= MaxYear
    ensures 5 <= NumDigits(y) <= 9
  {
    var k := NumDigits(y);
    assert Pow10(4) == 10000 && Pow10(9) == 1_000_000_000;
    if k < 5 { Pow10Monotone(k, 4); }
    if k > 9 { Pow10Monotone(9, k - 1); }
  }

  lemma {:induction false} DigitRunExact(s: string, pos: nat, n: nat)
    requires pos + n <= |s|
    requires forall i :: pos <= i < pos + n ==> IsDigit(s[i])
    requires pos + n == |s| || !IsDigit(s[pos + n])
    ensures DigitRun(s, pos) == n
    decreases n
  {
    if n > 0 {
      DigitRunExact(s, pos + 1, n - 1);
    }
  }

  /** Two printed digits parse back as `MM` or `dd`. */
  lemma TwoDigitAtom(s: string, pos: nat, v: nat, a: Atom, f: Fields)
    requires v < 100 && (a == Month2 || a == Day2)
    requires pos + 2 <= |s| && s[pos..pos + 2] == DigitsOf(v, 2)
    ensures ParseAtom(s, pos, a, f) ==
              Some((pos + 2, if a == Month2 then f.(month := Some(v)) else f.(day := Some(v))))
  {
    assert Pow10(2) == 100;
    ValueOfDigitsOf(v, 2);
    assert s[pos] == DigitsOf(v, 2)[0] && s[pos + 1] == DigitsOf(v, 2)[1];
  }

  /** A printed year (with '+' above 9999) parses back as `yyyy` when no
    * digit follows it. */
  lemma YearAtom(s: string, pos: nat, y: nat, f: Fields)
    requires 1 <= y <= MaxYear
    requires pos + |PaddedYear(y, true)| <= |s| && s[pos..pos + |PaddedYear(y, true)|] == PaddedYear(y, true)
    requires pos + |PaddedYear(y, true)| == |s| || !IsDigit(s[pos + |PaddedYear(y, true)|])
    ensures ParseAtom(s, pos, YearOfEra4, f) == Some((pos + |PaddedYear(y, true)|, f.(yearOfEra := Some(y))))
  {
    var t := PaddedYear(y, true);
    var k := |t|;
    if y <= 9999 {
      assert t == DigitsOf(y, 4);
      FourDigitYear(s, pos, y);
    } else {
      var u := NatToString(y);
      assert t == "+" + u;
      assert s[pos] == t[0];
      assert s[pos + 1..pos + k] == u by {
        assert s[pos + 1..pos + k] == s[pos..pos + k][1..];
      }
      WideYear(s, pos, y);
    }
  }

  lemma FourDigitYear(s: string, pos: nat, y: nat)
    requires y <= 9999
    requires pos + 4 <= |s| && s[pos..pos + 4] == DigitsOf(y, 4)
    requires pos + 4 == |s| || !IsDigit(s[pos + 4])
    ensures ParseYearOfEra(s, pos) == Some((pos + 4, y))
  {
    var t := DigitsOf(y, 4);
    assert Pow10(4) == 10000;
    ValueOfDigitsOf(y, 4);
    assert forall i :: pos <= i < pos + 4 ==> s[i] == t[i - pos];
    DigitRunExact(s, pos, 4);
    assert IsDigit(s[pos]);
  }

  lemma WideYear(s: string, pos: nat, y: nat)
    requires 9999 < y <= MaxYear
    requires pos + 1 + NumDigits(y) <= |s| && s[pos] == '+' && s[pos + 1..pos + 1 + NumDigits(y)] == NatToString(y)
    requires pos + 1 + NumDigits(y) == |s| || !IsDigit(s[pos + 1 + NumDigits(y)])
    ensures ParseYearOfEra(s, pos) == Some((pos + 1 + NumDigits(y), y))
  {
    var k := NumDigits(y);
    var t := NatToString(y);
    NumDigitsWideYear(y);
    assert forall i :: pos + 1 <= i < pos + 1 + k ==> IsDigit(s[i]) by {
      forall i | pos + 1 <= i < pos + 1 + k ensures IsDigit(s[i]) {
        assert s[i] == t[i - pos - 1];
      }
    }
    DigitRunExact(s, pos + 1, k);
    assert Min(DigitRun(s, pos + 1), 19) == k;
    ValueOfDigitsOf(y, k);
    assert ValueAt(s, pos + 1, k) == y;
  }

  // ---- stepping through a pattern ----

  lemma SectionsRequired(s: string, pos: nat, a: Atom, rest: seq<Section>, f: Fields, p: nat, g: Fields)
    requires pos <= |s| && ParseAtom(s, pos, a, f) == Some((p, g))
    ensures ParseSections(s, pos, [Required(a)] + rest, f) == ParseSections(s, p, rest, g)
  {
    assert ([Required(a)] + rest)[1..] == rest;
  }

  lemma SectionsOptionalHit(s: string, pos: nat, atoms: seq<Atom>, rest: seq<Section>, f: Fields, p: nat, g: Fields)
    requires pos <= |s| && ParseAtoms(s, pos, atoms, f) == Some((p, g))
    ensures ParseSections(s, pos, [Optional(atoms)] + rest, f) == ParseSections(s, p, rest, g)
  {
    assert ([Optional(atoms)] + rest)[1..] == rest;
  }

  lemma SectionsOptionalMiss(s: string, pos: nat, atoms: seq<Atom>, rest: seq<Section>, f: Fields)
    requires pos <= |s| && ParseAtoms(s, pos, atoms, f) == None
    ensures ParseSections(s, pos, [Optional(atoms)] + rest, f) == ParseSections(s, pos, rest, f)
  {
    assert ([Optional(atoms)] + rest)[1..] == rest;
  }

  lemma TwoAtoms(s: string, pos: nat, a: Atom, b: Atom, f: Fields, p: nat, g: Fields, q: nat, h: Fields)
    requires pos <= |s| && ParseAtom(s, pos, a, f) == Some((p, g)) && ParseAtom(s, p, b, g) == Some((q, h))
    ensures ParseAtoms(s, pos, [a, b], f) == Some((q, h))
  {
    assert [a, b][1..] == [b] && [b][1..] == [];
    assert ParseAtoms(s, q, [], h) == Some((q, h));
    assert ParseAtoms(s, p, [b], g) == Some((q, h));
  }

  lemma LiteralAtom(s: string, pos: nat, c: char, f: Fields)
    requires pos < |s| && s[pos] == c
    ensures ParseAtom(s, pos, Literal(c), f) == Some((pos + 1, f))
  {
  }

  /** Parsing ends with the fields collected when the text is used up. */
  lemma SectionsDone(s: string, f: Fields)
    ensures ParseSections(s, |s|, [], f) == Some(f)
  {
  }

  lemma BestOfSections(pattern: seq<Section>, s: string, f: Fields)
    requires ParseSections(s, 0, pattern, NoFields) == Some(f)
    ensures ParseBest(pattern, s) == Resolve(f)
  {
  }

  /** `Resolve` moves a day past the month's end back to its last day. */
  lemma SmartDayClamps(y: int, m: int, d: int)
    requires 1 <= m <= 12 && 1 <= d <= 31
    ensures SmartDay(y, m, d) == Min(d, LengthOfMonth(y, m))
  {
  }

  // ---- what the patterns accept ----

  /** "yyyy-MM-dd" (with '+' before a year above 9999): a full date when
    * month and day are in range, the day clamped to the month's length;
    * a parse error otherwise. */
  lemma IsoFullDate(y: nat, m: nat, d: nat)
    requires 1 <= y <= MaxYear && m < 100 && d < 100
    ensures ParseBest(IsoPattern, PaddedYear(y, true) + "-" + DigitsOf(m, 2) + "-" + DigitsOf(d, 2)) ==
              if 1 <= m <= 12 && 1 <= d <= 31 then Some(FullDate(y, m, Min(d, LengthOfMonth(y, m)))) else None
  {
    var s := PaddedYear(y, true) + "-" + DigitsOf(m, 2) + "-" + DigitsOf(d, 2);
    IsoFullSections(y, m, d);
    BestOfSections(IsoPattern, s, Fields(Some(y), Some(m), Some(d)));
    if 1 <= m <= 12 && 1 <= d <= 31 {
      SmartDayClamps(y, m, d);
    }
  }

  lemma IsoFullSections(y: nat, m: nat, d: nat)
    requires 1 <= y <= MaxYear && m < 100 && d < 100
    ensures ParseSections(PaddedYear(y, true) + "-" + DigitsOf(m, 2) + "-" + DigitsOf(d, 2), 0, IsoPattern, NoFields)
            == Some(Fields(Some(y), Some(m), Some(d)))
  {
    var t := PaddedYear(y, true);
    var n := |t|;
    var s := t + "-" + DigitsOf(m, 2) + "-" + DigitsOf(d, 2);
    assert s[n] == '-' && s[n + 3] == '-';
    assert s[0..n] == t;
    assert s[n + 1..n + 3] == DigitsOf(m, 2);
    assert s[n + 4..n + 6] == DigitsOf(d, 2);
    YearAtom(s, 0, y, NoFields);
    IsoSectionsOf(s, n, y, m, d);
  }

  /** "-MM" fills the month. */
  lemma DashMonth(s: string, pos: nat, m: nat, f: Fields)
    requires m < 100 && pos + 3 <= |s| && s[pos] == '-' && s[pos + 1..pos + 3] == DigitsOf(m, 2)
    ensures ParseAtoms(s, pos, [Literal('-'), Month2], f) == Some((pos + 3, f.(month := Some(m))))
  {
    LiteralAtom(s, pos, '-', f);
    TwoDigitAtom(s, pos + 1, m, Month2, f);
    TwoAtoms(s, pos, Literal('-'), Month2, f, pos + 1, f, pos + 3, f.(month := Some(m)));
  }

  /** "-dd" fills the day. */
  lemma DashDay(s: string, pos: nat, d: nat, f: Fields)
    requires d < 100 && pos + 3 <= |s| && s[pos] == '-' && s[pos + 1..pos + 3] == DigitsOf(d, 2)
    ensures ParseAtoms(s, pos, [Literal('-'), Day2], f) == Some((pos + 3, f.(day := Some(d))))
  {
    LiteralAtom(s, pos, '-', f);
    TwoDigitAtom(s, pos + 1, d, Day2, f);
    TwoAtoms(s, pos, Literal('-'), Day2, f, pos + 1, f, pos + 3, f.(day := Some(d)));
  }

  /** A year, "-MM" and "-dd" fill all three fields of the first pattern. */
  lemma IsoSectionsOf(s: string, n: nat, y: int, m: nat, d: nat)
    requires m < 100 && d < 100
    requires |s| == n + 6 && s[n] == '-' && s[n + 1..n + 3] == DigitsOf(m, 2)
    requires s[n + 3] == '-' && s[n + 4..n + 6] == DigitsOf(d, 2)
    requires ParseAtom(s, 0, YearOfEra4, NoFields) == Some((n, NoFields.(yearOfEra := Some(y))))
    ensures ParseSections(s, 0, IsoPattern, NoFields) == Some(Fields(Some(y), Some(m), Some(d)))
  {
    var f1 := NoFields.(yearOfEra := Some(y));
    var f2 := f1.(month := Some(m));
    var f3 := f2.(day := Some(d));
    assert IsoPattern == [Required(YearOfEra4)] + ([Optional([Literal('-'), Month2])] + ([Optional([Literal('-'), Day2])] + []));
    SectionsRequired(s, 0, YearOfEra4, [Optional([Literal('-'), Month2])] + ([Optional([Literal('-'), Day2])] + []), NoFields, n, f1);
    DashMonth(s, n, m, f1);
    SectionsOptionalHit(s, n, [Literal('-'), Month2], [Optional([Literal('-'), Day2])] + [], f1, n + 3, f2);
    DashDay(s, n + 3, d, f2);
    SectionsOptionalHit(s, n + 3, [Literal('-'), Day2], [], f2, n + 6, f3);
    SectionsDone(s, f3);
  }

  /** A year and "-MM" fill the year and the month of the first pattern. */
  lemma IsoMonthSectionsOf(s: string, n: nat, y: int, m: nat)
    requires m < 100
    requires |s| == n + 3 && s[n] == '-' && s[n + 1..n + 3] == DigitsOf(m, 2)
    requires ParseAtom(s, 0, YearOfEra4, NoFields) == Some((n, NoFields.(yearOfEra := Some(y))))
    ensures ParseSections(s, 0, IsoPattern, NoFields) == Some(Fields(Some(y), Some(m), None))
  {
    var f1 := NoFields.(yearOfEra := Some(y));
    var f2 := f1.(month := Some(m));
    assert IsoPattern == [Required(YearOfEra4)] + ([Optional([Literal('-'), Month2])] + ([Optional([Literal('-'), Day2])] + []));
    SectionsRequired(s, 0, YearOfEra4, [Optional([Literal('-'), Month2])] + ([Optional([Literal('-'), Day2])] + []), NoFields, n, f1);
    DashMonth(s, n, m, f1);
    SectionsOptionalHit(s, n, [Literal('-'), Month2], [Optional([Literal('-'), Day2])] + [], f1, n + 3, f2);
    assert ParseAtoms(s, n + 3, [Literal('-'), Day2], f2) == None;
    SectionsOptionalMiss(s, n + 3, [Literal('-'), Day2], [], f2);
    SectionsDone(s, f2);
  }

  /** "yyyy-MM": a year-month for a month in 1..12, and only the year for
    * any other two digits. */
  lemma IsoYearMonth(y: nat, m: nat)
    requires 1 <= y <= MaxYear && m < 100
    ensures ParseBest(IsoPattern, PaddedYear(y, true) + "-" + DigitsOf(m, 2)) ==
              if 1 <= m <= 12 then Some(YearMonth(y, m)) else Some(Year(y))
  {
    var t := PaddedYear(y, true);
    var n := |t|;
    var s := t + "-" + DigitsOf(m, 2);
    assert s[n] == '-';
    assert s[0..n] == t;
    assert s[n + 1..n + 3] == DigitsOf(m, 2);
    YearAtom(s, 0, y, NoFields);
    IsoMonthSectionsOf(s, n, y, m);
    BestOfSections(IsoPattern, s, Fields(Some(y), Some(m), None));
  }

  /** "yyyy" alone: the year. */
  lemma IsoYear(y: nat)
    requires 1 <= y <= MaxYear
    ensures ParseBest(IsoPattern, PaddedYear(y, true)) == Some(Year(y))
  {
    var s := PaddedYear(y, true);
    YearAtom(s, 0, y, NoFields);
    var f1 := NoFields.(yearOfEra := Some(y));
    assert ParseAtoms(s, |s|, [Literal('-'), Month2], f1) == None;
    assert ParseAtoms(s, |s|, [Literal('-'), Day2], f1) == None;
    assert ParseSections(s, 0, IsoPattern, NoFields) == Some(f1);
  }

  /** "dd.MM.yyyy" resolves exactly as "yyyy-MM-dd" does. */
  lemma DottedFullDate(y: nat, m: nat, d: nat)
    requires 1 <= y <= MaxYear && m < 100 && d < 100
    ensures ParseBest(DottedPattern, DigitsOf(d, 2) + "." + DigitsOf(m, 2) + "." + PaddedYear(y, true)) ==
              if 1 <= m <= 12 && 1 <= d <= 31 then Some(FullDate(y, m, Min(d, LengthOfMonth(y, m)))) else None
  {
    DottedSections(y, m, d);
    if 1 <= m <= 12 && 1 <= d <= 31 {
      SmartDayClamps(y, m, d);
    }
  }

  lemma DottedSections(y: nat, m: nat, d: nat)
    requires 1 <= y <= MaxYear && m < 100 && d < 100
    ensures ParseSections(DigitsOf(d, 2) + "." + DigitsOf(m, 2) + "." + PaddedYear(y, true), 0, DottedPattern, NoFields)
            == Some(Fields(Some(y), Some(m), Some(d)))
    ensures ParseSections(DigitsOf(d, 2) + "." + DigitsOf(m, 2) + "." + PaddedYear(y, true), 0, DottedShortMonthPattern, NoFields)
            == Some(Fields(Some(y), Some(m), Some(d)))
  {
    var t := PaddedYear(y, true);
    var h := DigitsOf(d, 2) + "." + DigitsOf(m, 2) + ".";
    assert |h| == 6 && h[..2] == DigitsOf(d, 2) && h[2] == '.' && h[3..5] == DigitsOf(m, 2) && h[5] == '.';
    DottedHead(h, t, y, m, d);
  }

  lemma DottedHead(h: string, t: string, y: nat, m: nat, d: nat)
    requires 1 <= y <= MaxYear && m < 100 && d < 100 && t == PaddedYear(y, true)
    requires |h| == 6 && h[..2] == DigitsOf(d, 2) && h[2] == '.' && h[3..5] == DigitsOf(m, 2) && h[5] == '.'
    ensures ParseSections(h + t, 0, DottedPattern, NoFields) == Some(Fields(Some(y), Some(m), Some(d)))
    ensures ParseSections(h + t, 0, DottedShortMonthPattern, NoFields) == Some(Fields(Some(y), Some(m), Some(d)))
  {
    var s := h + t;
    assert s[..6] == h && s[6..6 + |t|] == t;
    assert s[..2] == h[..2] && s[3..5] == h[3..5];
    YearAtom(s, 6, y, NoFields);
    DottedSectionsOf(s, y, m, d);
  }

  /** "dd.MM." followed by a year is read alike by the second and third
    * patterns. */
  lemma DottedSectionsOf(s: string, y: int, m: nat, d: nat)
    requires m < 100 && d < 100
    requires |s| >= 6 && s[..2] == DigitsOf(d, 2) && s[2] == '.' && s[3..5] == DigitsOf(m, 2) && s[5] == '.'
    requires ParseYearOfEra(s, 6) == Some((|s|, y))
    ensures ParseSections(s, 0, DottedPattern, NoFields) == Some(Fields(Some(y), Some(m), Some(d)))
    ensures ParseSections(s, 0, DottedShortMonthPattern, NoFields) == Some(Fields(Some(y), Some(m), Some(d)))
  {
    assert s[0..2] == s[..2];
    TwoDigitAtom(s, 0, d, Day2, NoFields);
    var f1 := NoFields.(day := Some(d));
    LiteralAtom(s, 2, '.', f1);
    TwoAtoms(s, 0, Day2, Literal('.'), NoFields, 2, f1, 3, f1);
    TwoDigitAtom(s, 3, m, Month2, f1);
    TwoDigitMonthVar(s, 3, m);
    var f2 := f1.(month := Some(m));
    LiteralAtom(s, 5, '.', f2);
    TwoAtoms(s, 3, Month2, Literal('.'), f1, 5, f2, 6, f2);
    TwoAtoms(s, 3, MonthVar, Literal('.'), f1, 5, f2, 6, f2);
    var f3 := f2.(yearOfEra := Some(y));
    SectionsRequired(s, 6, YearOfEra4, [], f2, |s|, f3);
    SectionsDone(s, f3);
    assert [Required(YearOfEra4)] + [] == [Required(YearOfEra4)];
    SectionsOptionalHit(s, 3, [Month2, Literal('.')], [Required(YearOfEra4)], f1, 6, f2);
    SectionsOptionalHit(s, 3, [MonthVar, Literal('.')], [Required(YearOfEra4)], f1, 6, f2);
    SectionsOptionalHit(s, 0, [Day2, Literal('.')], DottedPattern[1..], NoFields, 3, f1);
    SectionsOptionalHit(s, 0, [Day2, Literal('.')], DottedShortMonthPattern[1..], NoFields, 3, f1);
    assert DottedPattern == [Optional([Day2, Literal('.')])] + DottedPattern[1..];
    assert DottedPattern[1..] == [Optional([Month2, Literal('.')])] + [Required(YearOfEra4)];
    assert DottedShortMonthPattern == [Optional([Day2, Literal('.')])] + DottedShortMonthPattern[1..];
    assert DottedShortMonthPattern[1..] == [Optional([MonthVar, Literal('.')])] + [Required(YearOfEra4)];
  }

  /** The third pattern reads a two-digit month as the second does. */
  lemma DottedShortMonthTwoDigits(y: nat, m: nat, d: nat)
    requires 1 <= y <= MaxYear && m < 100 && d < 100
    ensures ParseBest(DottedShortMonthPattern, DigitsOf(d, 2) + "." + DigitsOf(m, 2) + "." + PaddedYear(y, true)) ==
            ParseBest(DottedPattern, DigitsOf(d, 2) + "." + DigitsOf(m, 2) + "." + PaddedYear(y, true))
  {
    DottedSections(y, m, d);
  }

  lemma TwoDigitMonthVar(s: string, pos: nat, m: nat)
    requires m < 100
    requires pos + 3 <= |s| && s[pos..pos + 2] == DigitsOf(m, 2) && s[pos + 2] == '.'
    ensures ParseMonthVar(s, pos) == Some((pos + 2, m as int))
  {
    assert IsDigit(s[pos]) && IsDigit(s[pos + 1]) by {
      assert s[pos] == DigitsOf(m, 2)[0] && s[pos + 1] == DigitsOf(m, 2)[1];
    }
    assert s[pos] != '+' && s[pos] != '-' by {
      assert IsDigit(s[pos]);
    }
    DigitRunExact(s, pos, 2);
    assert Pow10(2) == 100;
    ValueOfDigitsOf(m, 2);
    assert ValueAt(s, pos, 2) == m;
    assert Min(2, 19) == 2;
  }

  /** A run of digits whose length is not four, followed by nothing or by
    * '-', is rejected by every pattern: the year needs exactly four digits
    * without a sign, and the dotted sections need a '.' after their digits. */
  lemma OddYearRejected(a: string, rest: string, pattern: seq<Section>)
    requires AllDigits(a) && 1 <= |a| != 4
    requires rest == [] || rest[0] == '-'
    requires pattern in {IsoPattern, DottedPattern, DottedShortMonthPattern}
    ensures ParseBest(pattern, a + rest) == None
  {
    var s := a + rest;
    assert forall i :: 0 <= i < |a| ==> IsDigit(s[i]);
    DigitRunExact(s, 0, |a|);
    assert ParseAtom(s, 0, YearOfEra4, NoFields) == None;
    if pattern != IsoPattern {
      assert ParseAtoms(s, 0, [Day2, Literal('.')], NoFields) == None by {
        if |s| >= 2 && IsDigit(s[0]) && IsDigit(s[1]) {
          assert |s| == 2 || s[2] != '.';
        }
      }
      assert ParseAtoms(s, 0, [Month2, Literal('.')], NoFields) == None by {
        if |s| >= 2 && IsDigit(s[0]) && IsDigit(s[1]) {
          assert |s| == 2 || s[2] != '.';
        }
      }
      assert ParseAtoms(s, 0, [MonthVar, Literal('.')], NoFields) == None by {
        match ParseAtom(s, 0, MonthVar, NoFields)
        case None =>
        case Some((p, g)) =>
          assert 1 <= p <= |a|;
          assert p == |s| || s[p] != '.';
      }
    }
  }

  /** "dd.M.yyyy" with a one-digit month: the second pattern cannot read
    * the month (it wants two digits) and then fails on the year, the third
    * resolves it. */
  lemma ShortMonthDate(y: nat, m: nat, d: nat)
    requires 1 <= y <= MaxYear && 1 <= m <= 9 && d < 100
    ensures ParseBest(DottedPattern, DigitsOf(d, 2) + "." + [DigitChar(m)] + "." + PaddedYear(y, true)) == None
    ensures ParseBest(DottedShortMonthPattern, DigitsOf(d, 2) + "." + [DigitChar(m)] + "." + PaddedYear(y, true)) ==
              if 1 <= d <= 31 then Some(FullDate(y, m, Min(d, LengthOfMonth(y, m)))) else None
  {
    var t := PaddedYear(y, true);
    var s := DigitsOf(d, 2) + "." + [DigitChar(m)] + "." + t;
    assert |s| == 5 + |t| && s[5..5 + |t|] == t;
    assert s[..2] == DigitsOf(d, 2) && s[2] == '.' && s[3] == DigitChar(m) && s[4] == '.';
    YearAtom(s, 5, y, NoFields);
    ShortMonthRejected(s, m, d);
    ShortMonthSectionsOf(s, y, m, d);
    BestOfSections(DottedShortMonthPattern, s, Fields(Some(y), Some(m), Some(d)));
    if 1 <= d <= 31 {
      SmartDayClamps(y, m, d);
    }
  }

  /** After "dd." the second pattern finds no two-digit month, skips that
    * section and then fails on a one-digit year. */
  lemma ShortMonthRejected(s: string, m: nat, d: nat)
    requires 1 <= m <= 9 && d < 100
    requires |s| >= 5 && s[..2] == DigitsOf(d, 2) && s[2] == '.' && s[3] == DigitChar(m) && s[4] == '.'
    ensures ParseSections(s, 0, DottedPattern, NoFields) == None
  {
    assert s[0..2] == s[..2];
    TwoDigitAtom(s, 0, d, Day2, NoFields);
    var f1 := NoFields.(day := Some(d));
    LiteralAtom(s, 2, '.', f1);
    TwoAtoms(s, 0, Day2, Literal('.'), NoFields, 2, f1, 3, f1);
    assert ParseAtom(s, 3, Month2, f1) == None;
    assert ParseAtoms(s, 3, [Month2, Literal('.')], f1) == None;
    DigitRunExact(s, 3, 1);
    assert ParseAtom(s, 3, YearOfEra4, f1) == None;
    assert ParseSections(s, 3, [Required(YearOfEra4)], f1) == None;
    SectionsOptionalMiss(s, 3, [Month2, Literal('.')], [Required(YearOfEra4)], f1);
    SectionsOptionalHit(s, 0, [Day2, Literal('.')], DottedPattern[1..], NoFields, 3, f1);
    assert DottedPattern == [Optional([Day2, Literal('.')])] + DottedPattern[1..];
    assert DottedPattern[1..] == [Optional([Month2, Literal('.')])] + [Required(YearOfEra4)];
  }

  /** A one-digit month followed by '.' is read by `M`. */
  lemma OneDigitMonthVar(s: string, pos: nat, m: nat)
    requires 1 <= m <= 9
    requires pos + 2 <= |s| && s[pos] == DigitChar(m) && s[pos + 1] == '.'
    ensures ParseMonthVar(s, pos) == Some((pos + 1, m as int))
  {
    DigitRunExact(s, pos, 1);
    var one := [DigitChar(m)];
    assert s[pos..pos + 1] == one;
    assert one[..0] == [];
    assert ValueOf(one) == 10 * ValueOf([]) + (DigitChar(m) as int - '0' as int);
    assert ValueAt(s, pos, 1) == m;
  }

  /** After "dd.", "M." and a year fill all three fields of the third
    * pattern. */
  lemma ShortMonthSectionsOf(s: string, y: int, m: nat, d: nat)
    requires 1 <= m <= 9 && d < 100
    requires |s| >= 5 && s[..2] == DigitsOf(d, 2) && s[2] == '.' && s[3] == DigitChar(m) && s[4] == '.'
    requires ParseYearOfEra(s, 5) == Some((|s|, y))
    ensures ParseSections(s, 0, DottedShortMonthPattern, NoFields) == Some(Fields(Some(y), Some(m), Some(d)))
  {
    assert s[0..2] == s[..2];
    TwoDigitAtom(s, 0, d, Day2, NoFields);
    var f1 := NoFields.(day := Some(d));
    LiteralAtom(s, 2, '.', f1);
    TwoAtoms(s, 0, Day2, Literal('.'), NoFields, 2, f1, 3, f1);
    OneDigitMonthVar(s, 3, m);
    var f2 := f1.(month := Some(m));
    LiteralAtom(s, 4, '.', f2);
    TwoAtoms(s, 3, MonthVar, Literal('.'), f1, 4, f2, 5, f2);
    var f3 := f2.(yearOfEra := Some(y));
    SectionsRequired(s, 5, YearOfEra4, [], f2, |s|, f3);
    SectionsDone(s, f3);
    assert [Required(YearOfEra4)] + [] == [Required(YearOfEra4)];
    SectionsOptionalHit(s, 3, [MonthVar, Literal('.')], [Required(YearOfEra4)], f1, 5, f2);
    SectionsOptionalHit(s, 0, [Day2, Literal('.')], DottedShortMonthPattern[1..], NoFields, 3, f1);
    assert DottedShortMonthPattern == [Optional([Day2, Literal('.')])] + DottedShortMonthPattern[1..];
    assert DottedShortMonthPattern[1..] == [Optional([MonthVar, Literal('.')])] + [Required(YearOfEra4)];
  }

  /** Text starting with two digits and a non-digit is not ISO-style. */
  lemma IsoRejectsTwoDigitStart(s: string)
    requires |s| >= 3 && IsDigit(s[0]) && IsDigit(s[1]) && s[2] == '.'
    ensures ParseBest(IsoPattern, s) == None
  {
    DigitRunExact(s, 0, 2);
    assert ParseAtom(s, 0, YearOfEra4, NoFields) == None;
  }

  // ---- printing ----

  /** The year as `LocalDate` and `YearMonth` print it: at least four
    * digits; `LocalDate` adds '+' above 9999. */
  function PaddedYear(y: nat, plusAbove9999: bool): string
  {
    if y <= 9999 then DigitsOf(y, 4)
    else (if plusAbove9999 then "+" else "") + NatToString(y)
  }

  /** `toString` of the three kinds (years of era are positive). */
  function ToText(d: PartialDate): (r: string)
    requires ValidDate(d)
    ensures d.Year? ==> AllDigits(r) && r != []
    ensures d.YearMonth? ==> |r| >= 7 && r[|r| - 3] == '-' && AllDigits(r[|r| - 2..])
    ensures d.FullDate? ==> |r| >= 10 && r[|r| - 6] == '-' && r[|r| - 3] == '-' &&
                            AllDigits(r[|r| - 5..|r| - 3]) && AllDigits(r[|r| - 2..])
  {
    match d
    case Year(y) => NatToString(y)
    case YearMonth(y, m) => PaddedYear(y, false) + "-" + DigitsOf(m, 2)
    case FullDate(y, m, dd) => PaddedYear(y, true) + "-" + DigitsOf(m, 2) + "-" + DigitsOf(dd, 2)
  }
}

/** `DateTemporalAccessorFieldAdapter`: the index codec of dates. */
module DateFieldAdapter {
  import opened Wrappers
  import opened JavaStrings
  import opened Dates

  /** The patterns, in the order they are tried. */
  const Patterns: seq<seq<Section>> := [IsoPattern, DottedPattern, DottedShortMonthPattern]

  /** The first pattern that parses, or None. */
  function FirstParse(patterns: seq<seq<Section>>, s: string): (r: Option<PartialDate>)
    ensures r.Some? <==> exists i :: 0 <= i < |patterns| && ParseBest(patterns[i], s).Some?
    ensures r.Some? ==> exists i :: 0 <= i < |patterns| && ParseBest(patterns[i], s) == r
                          && forall j :: 0 <= j < i ==> ParseBest(patterns[j], s).None?
  {
    if patterns == [] then None
    else if ParseBest(patterns[0], s).Some? then ParseBest(patterns[0], s)
    else
      var r := FirstParse(patterns[1..], s);
      assert forall i :: 1 <= i < |patterns| ==> patterns[i] == patterns[1..][i - 1];
      r
  }

  /** The three patterns tried in turn. */
  lemma FirstParseOfPatterns(s: string)
    ensures FirstParse(Patterns, s) ==
              if ParseBest(IsoPattern, s).Some? then ParseBest(IsoPattern, s)
              else if ParseBest(DottedPattern, s).Some? then ParseBest(DottedPattern, s)
              else ParseBest(DottedShortMonthPattern, s)
  {
    var p0 := Patterns;
    var p1 := [DottedPattern, DottedShortMonthPattern];
    var p2 := [DottedShortMonthPattern];
    assert p0[0] == IsoPattern && p0[1..] == p1;
    assert p1[0] == DottedPattern && p1[1..] == p2;
    assert p2[0] == DottedShortMonthPattern && p2[1..] == [];
    assert FirstParse(p2, s) == ParseBest(DottedShortMonthPattern, s);
    assert FirstParse(p1, s) == if ParseBest(DottedPattern, s).Some? then ParseBest(DottedPattern, s) else FirstParse(p2, s);
  }

  /** `unmarshal`: null for null, else the first pattern that parses; parse
    * failures are swallowed. */
  function Unmarshal(v: JString): (r: Option<PartialDate>)
    ensures v.None? ==> r.None?
    ensures r.Some? ==> ValidDate(r.value)
  {
    if v.None? then None else FirstParse(Patterns, v.value)
  }

  /** `marshal`: null-safe `toString`. */
  function Marshal(d: Option<PartialDate>): (r: JString)
    requires d.Some? ==> ValidDate(d.value)
    ensures r.None? <==> d.None?
  {
    if d.None? then None else Some(ToText(d.value))
  }
  /** The values that survive printing and reading back: the year of a
    * year-month and a bare year are printed without '+', so only four-digit
    * years read back, and a bare year is not padded, so years below 1000 do
    * not either. */
  predicate RoundTrips(d: PartialDate)
  {
    match d
    case Year(y) => 1000 <= y <= 9999
    case YearMonth(y, _) => y <= 9999
    case FullDate(_, _, _) => true
  }

  /** Reading back what was written gives the same date exactly when the
    * printed year is one the patterns accept; otherwise nothing at all. */
  lemma {:induction false} UnmarshalMarshal(d: PartialDate)
    requires ValidDate(d)
    ensures Unmarshal(Marshal(Some(d))) == Some(d) <==> RoundTrips(d)
    ensures !RoundTrips(d) ==> Unmarshal(Marshal(Some(d))) == None
  {
    match d
    case FullDate(y, m, dd) => FullDateRoundTrip(y, m, dd);
    case YearMonth(y, m) => YearMonthRoundTrip(y, m);
    case Year(y) => YearRoundTrip(y);
  }

  lemma FullDateRoundTrip(y: nat, m: nat, d: nat)
    requires ValidDate(FullDate(y, m, d))
    ensures FirstParse(Patterns, ToText(FullDate(y, m, d))) == Some(FullDate(y, m, d))
  {
    FirstParseOfPatterns(ToText(FullDate(y, m, d)));
    IsoFullDate(y, m, d);
  }

  lemma YearMonthRoundTrip(y: nat, m: nat)
    requires ValidDate(YearMonth(y, m))
    ensures FirstParse(Patterns, ToText(YearMonth(y, m))) == if y <= 9999 then Some(YearMonth(y, m)) else None
  {
    var s := ToText(YearMonth(y, m));
    if y <= 9999 {
      FirstParseOfPatterns(s);
      IsoYearMonth(y, m);
    } else {
      NumDigitsFour(y);
      RejectedByAll(NatToString(y), "-" + DigitsOf(m, 2));
      assert s == NatToString(y) + ("-" + DigitsOf(m, 2));
    }
  }

  lemma YearRoundTrip(y: nat)
    requires ValidDate(Year(y))
    ensures FirstParse(Patterns, ToText(Year(y))) == if 1000 <= y <= 9999 then Some(Year(y)) else None
  {
    var s := ToText(Year(y));
    NumDigitsFour(y);
    if 1000 <= y <= 9999 {
      assert s == PaddedYear(y, true);
      FirstParseOfPatterns(s);
      IsoYear(y);
    } else {
      RejectedByAll(NatToString(y), []);
      assert s == NatToString(y) + [];
    }
  }

  lemma RejectedByAll(a: string, rest: string)
    requires AllDigits(a) && 1 <= |a| != 4
    requires rest == [] || rest[0] == '-'
    ensures FirstParse(Patterns, a + rest) == None
  {
    FirstParseOfPatterns(a + rest);
    OddYearRejected(a, rest, IsoPattern);
    OddYearRejected(a, rest, DottedPattern);
    OddYearRejected(a, rest, DottedShortMonthPattern);
  }

  /** "dd.MM.yyyy" is read by the second pattern, after the first has
    * failed on the two-digit start. */
  lemma UnmarshalDotted(y: nat, m: nat, d: nat)
    requires 1 <= y <= MaxYear && m < 100 && d < 100
    ensures Unmarshal(Some(DigitsOf(d, 2) + "." + DigitsOf(m, 2) + "." + PaddedYear(y, true))) ==
              if 1 <= m <= 12 && 1 <= d <= 31 then Some(FullDate(y, m, Min(d, LengthOfMonth(y, m)))) else None
  {
    var s := DigitsOf(d, 2) + "." + DigitsOf(m, 2) + "." + PaddedYear(y, true);
    IsoRejectsTwoDigitStart(s);
    FirstParseOfPatterns(s);
    DottedFullDate(y, m, d);
    DottedShortMonthTwoDigits(y, m, d);
  }

  /** "dd.M.yyyy" with a one-digit month is read by the third pattern only. */
  lemma UnmarshalShortMonth(y: nat, m: nat, d: nat)
    requires 1 <= y <= MaxYear && 1 <= m <= 9 && d < 100
    ensures Unmarshal(Some(DigitsOf(d, 2) + "." + [DigitChar(m)] + "." + PaddedYear(y, true))) ==
              if 1 <= d <= 31 then Some(FullDate(y, m, Min(d, LengthOfMonth(y, m)))) else None
  {
    var s := DigitsOf(d, 2) + "." + [DigitChar(m)] + "." + PaddedYear(y, true);
    IsoRejectsTwoDigitStart(s);
    FirstParseOfPatterns(s);
    ShortMonthDate(y, m, d);
  }
}


/** `DateTemporalAccessorAdapter` (XML) and `DateAdapter` (RDF): the same
  * two-step parse, where the failure of the fallback propagates. Both print
  * with `toString`, as `DateFieldAdapter.Marshal` does. */
module DateXmlAdapter {
  import opened Wrappers
  import opened JavaStrings
  import opened Dates
  import DateFieldAdapter

  datatype DateError = NullText | Unparseable

  /** ISO-style first, the dotted pattern only after a parse exception. A
    * null text is rejected by the formatter before the null test of the
    * source is reached. */
  function Unmarshal(v: JString): (r: Result<PartialDate, DateError>)
    ensures v.None? <==> r == Failure(NullText)
    ensures v.Some? && ParseBest(IsoPattern, v.value).Some? ==> r == Success(ParseBest(IsoPattern, v.value).value)
    ensures v.Some? && ParseBest(IsoPattern, v.value).None? ==>
      r == (if ParseBest(DottedPattern, v.value).Some? then Success(ParseBest(DottedPattern, v.value).value)
            else Failure(Unparseable))
    ensures r.Success? ==> ValidDate(r.value)
  {
    if v.None? then Failure(NullText)
    else
      match ParseBest(IsoPattern, v.value)
      case Some(d) => Success(d)
      case None =>
        match ParseBest(DottedPattern, v.value)
        case Some(d) => Success(d)
        case None => Failure(Unparseable)
  }

  /** Every date the index codec reads back, these adapters read back too;
    * what neither reads back is a parse error here. */
  lemma UnmarshalToText(d: PartialDate)
    requires ValidDate(d)
    ensures DateFieldAdapter.RoundTrips(d) ==> Unmarshal(Some(ToText(d))) == Success(d)
    ensures !DateFieldAdapter.RoundTrips(d) ==> Unmarshal(Some(ToText(d))) == Failure(Unparseable)
  {
    if DateFieldAdapter.RoundTrips(d) {
      IsoReadsBack(d);
    } else {
      NotIsoReadable(d);
    }
  }

  /** Unlike the index codec, which has a third pattern for it, these
    * adapters reject "dd.M.yyyy" with a one-digit month. */
  lemma ShortMonthRejected(y: nat, m: nat, d: nat)
    requires 1 <= y <= MaxYear && 1 <= m <= 9 && d < 100
    ensures var s := DigitsOf(d, 2) + "." + [DigitChar(m)] + "." + PaddedYear(y, true);
      Unmarshal(Some(s)) == Failure(Unparseable) &&
      DateFieldAdapter.Unmarshal(Some(s)) ==
        if 1 <= d <= 31 then Some(FullDate(y, m, Min(d, LengthOfMonth(y, m)))) else None
  {
    var s := DigitsOf(d, 2) + "." + [DigitChar(m)] + "." + PaddedYear(y, true);
    IsoRejectsTwoDigitStart(s);
    ShortMonthDate(y, m, d);
    DateFieldAdapter.UnmarshalShortMonth(y, m, d);
  }

  lemma IsoReadsBack(d: PartialDate)
    requires ValidDate(d) && DateFieldAdapter.RoundTrips(d)
    ensures ParseBest(IsoPattern, ToText(d)) == Some(d)
  {
    match d
    case FullDate(y, m, dd) => IsoFullDate(y, m, dd);
    case YearMonth(y, m) => IsoYearMonth(y, m);
    case Year(y) =>
      NumDigitsFour(y);
      IsoYear(y);
  }

  lemma NotIsoReadable(d: PartialDate)
    requires ValidDate(d) && !DateFieldAdapter.RoundTrips(d)
    ensures ParseBest(IsoPattern, ToText(d)) == None && ParseBest(DottedPattern, ToText(d)) == None
  {
    var y := d.year;
    NumDigitsFour(y);
    var rest := if d.YearMonth? then "-" + DigitsOf(d.month, 2) else [];
    assert ToText(d) == NatToString(y) + rest;
    OddYearRejected(NatToString(y), rest, IsoPattern);
    OddYearRejected(NatToString(y), rest, DottedPattern);
  }
}
