/**
 * Cron expressions as text: splitting, validating and matching them character by character, and what each valid
 * expression means.
 */
module CronText {
  import opened Basics

  /** The local time components a schedule is matched against. */
  datatype Moment = Moment(minute: nat, hour: nat, dom: nat, month: nat, dow: nat)

  // ----- numbers ---------------------------------------------------------------------------------

  predicate Digit(c: char) {
    '0' <= c <= '9'
  }

  predicate Digits(s: string) {
    forall i :: 0 <= i < |s| ==> Digit(s[i])
  }

  function Value(ds: string): nat
    requires Digits(ds)
  {
    if ds == "" then 0 else 10 * Value(ds[..|ds| - 1]) + (ds[|ds| - 1] as int - '0' as int)
  }

  /** A number as a template literal prints it. */
  function Decimal(n: nat): (ds: string)
    ensures ds != "" && Digits(ds) && Value(ds) == n
  {
    var last := [(n % 10 + '0' as int) as char];
    if n < 10 then
      assert last[..0] == "";
      last
    else
      assert (Decimal(n / 10) + last)[..|Decimal(n / 10)|] == Decimal(n / 10);
      Decimal(n / 10) + last
  }

  function LeadingDigits(s: string): (k: nat)
    ensures k <= |s| && Digits(s[..k]) && (k < |s| ==> !Digit(s[k]))
  {
    if s == "" || !Digit(s[0]) then 0 else 1 + LeadingDigits(s[1..])
  }

  /** parseInt(s, 10): a sign, then as many digits as there are; anything after them is ignored. */
  function ParseInt(s: string): Option<int> {
    var body := if s != "" && (s[0] == '-' || s[0] == '+') then s[1..] else s;
    var k := LeadingDigits(body);
    if k == 0 then None
    else
      var n: int := Value(body[..k]);
      Some(if s[0] == '-' then -n else n)
  }

  lemma {:induction false} LeadingDigitsThen(ds: string, rest: string)
    requires Digits(ds) && (rest == "" || !Digit(rest[0]))
    ensures LeadingDigits(ds + rest) == |ds|
  {
    if ds == "" {
      assert ds + rest == rest;
    } else {
      assert (ds + rest)[1..] == ds[1..] + rest;
      LeadingDigitsThen(ds[1..], rest);
    }
  }

  lemma ParseDigits(ds: string, rest: string)
    requires Digits(ds) && ds != "" && (rest == "" || !Digit(rest[0]))
    ensures ParseInt(ds + rest) == Some(Value(ds))
  {
    LeadingDigitsThen(ds, rest);
    assert (ds + rest)[0] == ds[0];
    assert (ds + rest)[..|ds|] == ds;
  }

  /** Behind a sign, digits and anything that does not go on with a digit: the number of the digits, negative after a minus. */
  lemma ParseSigned(sign: char, ds: string, rest: string)
    requires sign == '-' || sign == '+'
    requires Digits(ds) && ds != "" && (rest == "" || !Digit(rest[0]))
    ensures var n: int := Value(ds); ParseInt([sign] + (ds + rest)) == Some(if sign == '-' then -n else n)
  {
    hide LeadingDigits, Value;
    var all, body := [sign] + (ds + rest), ds + rest;
    LeadingDigitsThen(ds, rest);
    assert all[1..] == body && all[0] == sign && body[..|ds|] == ds;
  }

  /** Without a digit at the start, or behind one sign, there is no number. */
  lemma NothingToParse(s: string)
    ensures ParseInt(s).None? <==>
            && (s == "" || !Digit(s[0]))
            && (s != "" && (s[0] == '-' || s[0] == '+') ==> |s| == 1 || !Digit(s[1]))
  {
  }

  // ----- one field -------------------------------------------------------------------------------

  function UpTo(s: string, c: char): (p: string)
    ensures |p| <= |s| && c !in p && p == s[..|p|] && (|p| < |s| ==> s[|p|] == c)
  {
    if s == "" || s[0] == c then "" else [s[0]] + UpTo(s[1..], c)
  }

  lemma {:induction false} UpToIs(p: string, c: char, rest: string)
    requires c !in p && (rest == "" || rest[0] == c)
    ensures UpTo(p + rest, c) == p
  {
    if p == "" {
      assert p + rest == rest;
    } else {
      assert (p + rest)[1..] == p[1..] + rest;
      UpToIs(p[1..], c, rest);
    }
  }

  predicate FieldMatches(field: string, value: nat) {
    if field == "*" then true
    else if "*/" <= field then
      var step := ParseInt(field[2..]);
      step.Some? && step.value > 0 && value % step.value == 0
    else if '-' in field then
      var first := UpTo(field, '-');
      var start, end := ParseInt(first), ParseInt(UpTo(field[|first|..][1..], '-'));
      start.Some? && end.Some? && start.value <= value <= end.value
    else
      ParseInt(field) == Some(value)
  }

  /** The field pattern: a star or digits, then optionally a slash or dash and digits. */
  predicate ValidField(field: string) {
    var head := if field != "" && field[0] == '*' then 1 else LeadingDigits(field);
    && head > 0
    && (head == |field| ||
        ((field[head] == '/' || field[head] == '-') && head + 1 < |field| && Digits(field[head + 1..])))
  }

  /** The six shapes a valid field can have. */
  datatype Form =
    | Any
    | Every(step: string)
    | StarDash(digits: string)
    | Exact(digits: string)
    | Slash(digits: string, ignored: string)
    | Range(start: string, end: string)

  predicate WellFormed(f: Form) {
    match f
    case Any => true
    case Every(d) => d != "" && Digits(d)
    case StarDash(d) => d != "" && Digits(d)
    case Exact(d) => d != "" && Digits(d)
    case Slash(d, e) => d != "" && Digits(d) && e != "" && Digits(e)
    case Range(d, e) => d != "" && Digits(d) && e != "" && Digits(e)
  }

  function Print(f: Form): string {
    match f
    case Any => "*"
    case Every(d) => "*/" + d
    case StarDash(d) => "*-" + d
    case Exact(d) => d
    case Slash(d, e) => d + "/" + e
    case Range(d, e) => d + "-" + e
  }

  /** What each shape means; the valid shape "*-n" matches nothing, and the step of "a/b" is not read. */
  predicate Denotes(f: Form, v: nat)
    requires WellFormed(f)
  {
    match f
    case Any => true
    case Every(d) => Value(d) > 0 && v % Value(d) == 0
    case StarDash(_) => false
    case Exact(d) => v == Value(d)
    case Slash(d, _) => v == Value(d)
    case Range(d, e) => Value(d) <= v <= Value(e)
  }

  lemma PrintedIsValid(f: Form)
    requires WellFormed(f)
    ensures ValidField(Print(f)) && Print(f) != "" && (Print(f) == "*" <==> f.Any?)
  {
    hide ValidField;
    StarValid();
    match f
    case Any =>
    case Every(d) => StarThenValid("*/", d);
    case StarDash(d) => StarThenValid("*-", d);
    case Exact(d) => DigitsThenValid(d, "");
    case Slash(d, e) =>
      DigitsThenValid(d, "/" + e);
      assert d + "/" + e == d + ("/" + e);
    case Range(d, e) =>
      DigitsThenValid(d, "-" + e);
      assert d + "-" + e == d + ("-" + e);
  }

  lemma StarValid()
    ensures ValidField("*")
  {
  }

  lemma StarThenValid(star: string, d: string)
    requires d != "" && Digits(d) && (star == "*/" || star == "*-")
    ensures ValidField(star + d) && star + d != "" && star + d != "*"
  {
    assert (star + d)[2..] == d;
  }

  lemma DigitsThenValid(d: string, rest: string)
    requires d != "" && Digits(d)
    requires rest == "" || (|rest| > 1 && (rest[0] == '/' || rest[0] == '-') && Digits(rest[1..]))
    ensures ValidField(d + rest) && d + rest != "" && d + rest != "*" && d + "" == d
  {
    hide LeadingDigits;
    var field := d + rest;
    LeadingDigitsThen(d, rest);
    assert Digit(field[0]);
    if rest != "" { assert field[|d| + 1..] == rest[1..] && field[|d|] == rest[0]; }
  }

  lemma NoDash(ds: string)
    requires Digits(ds)
    ensures '-' !in ds && '/' !in ds && '*' !in ds
  {
  }

  lemma DashMeans(first: string, second: string, v: nat)
    requires '-' !in first && second != "" && Digits(second) && !("*/" <= first + "-" + second)
    ensures FieldMatches(first + "-" + second, v) <==>
            ParseInt(first).Some? && ParseInt(first).value <= v <= Value(second)
  {
    hide ParseInt;
    var p := first + "-" + second;
    assert p[|first|] == '-' && p != "*";
    assert p == first + ("-" + second);
    UpToIs(first, '-', "-" + second);
    assert p[|first|..][1..] == second;
    NoDash(second);
    UpToIs(second, '-', "");
    ParseDigits(second, "");
    assert second + "" == second;
  }

  /** A printed field matches exactly the values its shape denotes. */
  lemma PrintedMeans(f: Form, v: nat)
    requires WellFormed(f)
    ensures FieldMatches(Print(f), v) <==> Denotes(f, v)
  {
    hide ParseInt, Value;
    var p := Print(f);
    match f
    case Any =>
    case Every(d) =>
      assert p[2..] == d && d + "" == d;
      ParseDigits(d, "");
    case StarDash(d) =>
      assert p == "*" + "-" + d && p[1] == '-' && "*/"[1] == '/';
      DashMeans("*", d, v);
      ParseStar();
    case Exact(d) =>
      NoDash(d);
      assert d + "" == d && Digit(p[0]);
      ParseDigits(d, "");
    case Slash(d, e) =>
      NoDash(d);
      NoDash(e);
      assert p == d + ("/" + e) && Digit(p[0]);
      assert '-' !in p;
      ParseDigits(d, "/" + e);
    case Range(d, e) =>
      NoDash(d);
      assert d + "" == d && Digit(p[0]);
      DashMeans(d, e, v);
      ParseDigits(d, "");
  }

  lemma ParseStar()
    ensures ParseInt("*").None?
  {
  }

  /** Every valid field is the print of one of the shapes. */
  lemma ValidIsPrinted(field: string) returns (f: Form)
    requires ValidField(field)
    ensures WellFormed(f) && Print(f) == field
  {
    if field[0] == '*' {
      if |field| == 1 {
        f := Any;
        assert field == "*";
      } else {
        f := if field[1] == '/' then Every(field[2..]) else StarDash(field[2..]);
        assert field == [field[0], field[1]] + field[2..];
      }
    } else {
      var head := LeadingDigits(field);
      if head == |field| {
        f := Exact(field);
        assert field[..head] == field;
      } else {
        f := if field[head] == '/' then Slash(field[..head], field[head + 1..]) else Range(field[..head], field[head + 1..]);
        assert field == field[..head] + [field[head]] + field[head + 1..];
      }
    }
  }

  // ----- whole expressions ------------------------------------------------------------------------

  /** White space and line ends, as trim() and the class \s have them. */
  predicate Space(c: char) {
    || '\U{0009}' <= c <= '\U{000D}' || '\U{2000}' <= c <= '\U{200A}'
    || c in "\U{0020}\U{00A0}\U{1680}\U{2028}\U{2029}\U{202F}\U{205F}\U{3000}\U{FEFF}"
  }

  function WordLength(s: string): (k: nat)
    ensures k <= |s| && (forall i :: 0 <= i < k ==> !Space(s[i])) && (k < |s| ==> Space(s[k]))
    ensures s != "" && !Space(s[0]) ==> k > 0
  {
    if s == "" || Space(s[0]) then 0 else 1 + WordLength(s[1..])
  }

  /** trim() and split on white space. */
  function Words(s: string): seq<string>
    decreases |s|
  {
    if s == "" then []
    else if Space(s[0]) then Words(s[1..])
    else
      var k := WordLength(s);
      [s[..k]] + Words(s[k..])
  }

  predicate Word(w: string) {
    w != "" && forall i :: 0 <= i < |w| ==> !Space(w[i])
  }

  lemma {:induction false} WordLengthIs(w: string, rest: string)
    requires (forall i :: 0 <= i < |w| ==> !Space(w[i])) && (rest == "" || Space(rest[0]))
    ensures WordLength(w + rest) == |w|
  {
    if w == "" {
      assert w + rest == rest;
    } else {
      assert (w + rest)[1..] == w[1..] + rest;
      WordLengthIs(w[1..], rest);
    }
  }

  lemma FirstWord(w: string, rest: string)
    requires Word(w)
    ensures Words(w + " " + rest) == [w] + Words(rest)
    ensures Words(w) == [w]
  {
    var s := w + " " + rest;
    assert s[0] == w[0] && s[|w|] == ' ';
    assert s == w + (" " + rest) && w + "" == w;
    WordLengthIs(w, " " + rest);
    WordLengthIs(w, "");
    var k := |w|;
    assert s[..k] == w && s[k..] == " " + rest && (" " + rest)[1..] == rest;
    assert w[..k] == w && w[k..] == "";
  }

  /** Five forms joined by single spaces. */
  datatype Schedule = Schedule(minute: Form, hour: Form, dom: Form, month: Form, dow: Form)

  predicate Sound(s: Schedule) {
    WellFormed(s.minute) && WellFormed(s.hour) && WellFormed(s.dom) && WellFormed(s.month) && WellFormed(s.dow)
  }

  function Text(s: Schedule): string {
    Print(s.minute) + " " + (Print(s.hour) + " " + (Print(s.dom) + " " + (Print(s.month) + " " + Print(s.dow))))
  }

  function Fields(s: Schedule): seq<string> {
    [Print(s.minute), Print(s.hour), Print(s.dom), Print(s.month), Print(s.dow)]
  }

  predicate ValidCron(expr: string) {
    var fields := Words(expr);
    |fields| == 5 && forall f <- fields :: ValidField(f)
  }

  predicate CronMatches(expr: string, m: Moment) {
    var fields := Words(expr);
    && |fields| == 5
    && FieldMatches(fields[0], m.minute)
    && FieldMatches(fields[1], m.hour)
    && FieldMatches(fields[3], m.month)
    && if fields[2] != "*" && fields[4] != "*"
       then FieldMatches(fields[2], m.dom) || FieldMatches(fields[4], m.dow)
       else FieldMatches(fields[2], m.dom) && FieldMatches(fields[4], m.dow)
  }

  /** Day of month and day of week are alternatives when both are restricted. */
  predicate Means(s: Schedule, m: Moment)
    requires Sound(s)
  {
    && Denotes(s.minute, m.minute) && Denotes(s.hour, m.hour) && Denotes(s.month, m.month)
    && if !s.dom.Any? && !s.dow.Any? then Denotes(s.dom, m.dom) || Denotes(s.dow, m.dow)
       else Denotes(s.dom, m.dom) && Denotes(s.dow, m.dow)
  }

  lemma NotSpace(c: char)
    requires Digit(c) || c in "*/-"
    ensures !Space(c)
  {
  }

  lemma PrintedIsWord(f: Form)
    requires WellFormed(f)
    ensures Word(Print(f))
  {
    hide Space;
    PrintedIsValid(f);
    var p := Print(f);
    forall i | 0 <= i < |p| ensures !Space(p[i]) {
      assert Digit(p[i]) || p[i] in "*/-";
      NotSpace(p[i]);
    }
  }

  lemma WordsOfText(s: Schedule)
    requires Sound(s)
    ensures Words(Text(s)) == Fields(s)
  {
    hide Words, Print, WellFormed;
    PrintedIsWord(s.minute);
    PrintedIsWord(s.hour);
    PrintedIsWord(s.dom);
    PrintedIsWord(s.month);
    PrintedIsWord(s.dow);
    FirstWord(Print(s.dow), "");
    FirstWord(Print(s.month), Print(s.dow));
    FirstWord(Print(s.dom), Print(s.month) + " " + Print(s.dow));
    FirstWord(Print(s.hour), Print(s.dom) + " " + (Print(s.month) + " " + Print(s.dow)));
    FirstWord(Print(s.minute), Print(s.hour) + " " + (Print(s.dom) + " " + (Print(s.month) + " " + Print(s.dow))));
  }

  lemma FieldsMean(expr: string, s: Schedule, m: Moment)
    requires Sound(s) && Words(expr) == Fields(s)
    ensures ValidCron(expr)
    ensures CronMatches(expr, m) <==> Means(s, m)
  {
    hide Words, Print, WellFormed, Denotes, FieldMatches, ValidField;
    PrintedIsValid(s.minute);
    PrintedIsValid(s.hour);
    PrintedIsValid(s.dom);
    PrintedIsValid(s.month);
    PrintedIsValid(s.dow);
    PrintedMeans(s.minute, m.minute);
    PrintedMeans(s.hour, m.hour);
    PrintedMeans(s.dom, m.dom);
    PrintedMeans(s.month, m.month);
    PrintedMeans(s.dow, m.dow);
  }

  /** A printed schedule is valid and matches exactly the moments it means. */
  lemma TextMeans(s: Schedule, m: Moment)
    requires Sound(s)
    ensures ValidCron(Text(s))
    ensures CronMatches(Text(s), m) <==> Means(s, m)
  {
    WordsOfText(s);
    FieldsMean(Text(s), s, m);
  }

  /** Every valid expression, however it is spaced, means one schedule: its fields are that schedule's prints. */
  lemma ValidCronMeans(expr: string, m: Moment) returns (s: Schedule)
    requires ValidCron(expr)
    ensures Sound(s) && Words(expr) == Fields(s)
    ensures CronMatches(expr, m) <==> Means(s, m)
  {
    hide Words, Print, WellFormed, CronMatches, Means, ValidField;
    var fs := Words(expr);
    var a := ValidIsPrinted(fs[0]);
    var b := ValidIsPrinted(fs[1]);
    var c := ValidIsPrinted(fs[2]);
    var d := ValidIsPrinted(fs[3]);
    var e := ValidIsPrinted(fs[4]);
    s := Schedule(a, b, c, d, e);
    FieldsMean(expr, s, m);
  }
}
