/** The Spanish inverse-normalization date verbalizer (`DateFst`): it reads the
    record `date { day: "D" month: "M" [markers] }` and renders `D de M'`, where M'
    is M looked up in the month tables, or reads `date { year: "Y" [markers] }`
    and renders `Y`. Trailing `preserve_order: true` and `field_order: "c"`
    markers are consumed. */
module EsDate {
  import opened Wrappers
  import opened Text
  import opened Tokens

  /** months.tsv and months_cased.tsv, the two tables `graph_month` is the union of. */
  datatype MonthTables = MonthTables(months: map<string, string>, cased: map<string, string>)

  /** `graph_month` on one input: the renderings of the month in either table. */
  function MonthOutputs(t: MonthTables, m: string): set<string> {
    (if m in t.months then {t.months[m]} else {}) + (if m in t.cased then {t.cased[m]} else {})
  }

  predicate NoWhiteSpace(s: string) {
    forall i :: 0 <= i < |s| ==> !IsWhiteSpace(s[i])
  }

  /** `delete_space` at the front of a string. */
  function Lstrip(s: string): (r: string)
    ensures |r| <= |s|
    ensures r == [] || !IsWhiteSpace(r[0])
  {
    s[SkipWhiteSpace(s)..]
  }

  /** Index of the first quote character, or |s| when there is none. */
  function FirstQuote(s: string): (k: nat)
    ensures k <= |s|
    ensures forall i :: 0 <= i < k ==> s[i] != '"'
    ensures k < |s| ==> s[k] == '"'
  {
    if |s| == 0 || s[0] == '"' then 0 else 1 + FirstQuote(s[1..])
  }

  /** `delete(key) + delete_space`: what follows the key and its whitespace. */
  function AfterKey(key: string, s: string): (r: Option<string>)
    ensures r.Some? ==> |r.value| + |key| <= |s|
  {
    if StartsWith(s, key) then Some(Lstrip(s[|key|..])) else None
  }

  /** `delete("\"") + closure(NEMO_NOT_QUOTE, 1) + delete("\"")`: a non-empty quoted
      value and the text after its closing quote. */
  function Quoted(u: string): (r: Option<(string, string)>)
    ensures r.Some? ==> |r.value.0| > 0 && '"' !in r.value.0
  {
    if |u| == 0 || u[0] != '"' then None
    else
      var q := FirstQuote(u[1..]);
      if q == 0 || q == |u| - 1 then None
      else
        assert forall i :: 0 <= i < q ==> u[1..q + 1][i] == u[1..][i];
        Some((u[1..q + 1], u[q + 2..]))
  }

  /** A field `key "V"`: its value and the text after it. */
  function QuotedField(key: string, s: string): (r: Option<(string, string)>)
    ensures r.Some? ==> |r.value.0| > 0 && '"' !in r.value.0
  {
    match AfterKey(key, s)
    case None => None
    case Some(u) => Quoted(u)
  }

  const PreserveOrderKey: string := "preserve_order:"
  const FieldOrderKey: string := "field_order:"

  /** `delete("preserve_order:") + delete_space + delete("true")`: the rest after the marker. */
  function PreserveOrderMarker(t: string): (r: Option<string>)
    ensures r.Some? ==> |r.value| < |t|
  {
    match AfterKey(PreserveOrderKey, t)
    case Some(v) => if StartsWith(v, "true") then Some(v[4..]) else None
    case None => None
  }

  /** `delete("field_order:") + delete_space + delete("\"") + NEMO_NOT_QUOTE + delete("\"")`:
      the field character and the rest after the marker. */
  function FieldOrderMarker(t: string): (r: Option<(char, string)>)
    ensures r.Some? ==> |r.value.1| < |t| && r.value.0 != '"'
  {
    match AfterKey(FieldOrderKey, t)
    case Some(v) => if |v| >= 3 && v[0] == '"' && v[1] != '"' && v[2] == '"' then Some((v[1], v[3..])) else None
    case None => None
  }

  /** One marker at the front of `t`: the characters the grammar as written copies
      to its output (the field of `field_order`, nothing for `preserve_order`) and
      the rest of the text. */
  function OneMarker(t: string): (r: Option<(string, string)>)
    ensures r.Some? ==> |r.value.1| < |t|
  {
    match PreserveOrderMarker(t)
    case Some(rest) => Some(([], rest))
    case None =>
      match FieldOrderMarker(t)
      case Some((c, rest)) => Some(([c], rest))
      case None => None
  }

  /** `delete_space + optional_preserve_order`: reads whitespace and any run of
      markers, and returns the characters the grammar as written copies. */
  function OrderTailFields(s: string): Option<string>
    decreases |s|
  {
    var t := Lstrip(s);
    if |t| == 0 then Some([])
    else
      match OneMarker(t)
      case None => None
      case Some((f, rest)) =>
        match OrderTailFields(rest)
        case Some(g) => Some(f + g)
        case None => None
  }

  /** What the day-month form reads: the day, the month key, and the marker
      characters the grammar as written copies. */
  datatype DayMonth = DayMonth(day: string, month: string, leak: string)

  /** A field followed by markers: the value and the marker characters. */
  function FieldThenMarkers(key: string, s: string): (r: Option<(string, string)>)
    ensures r.Some? ==> |r.value.0| > 0 && '"' !in r.value.0
  {
    match QuotedField(key, s)
    case None => None
    case Some((v, rest)) =>
      match OrderTailFields(rest)
      case None => None
      case Some(f) => Some((v, f))
  }

  /** `delete_extra_space + month` and the markers: at least one whitespace, then
      the month field. */
  function MonthAndMarkers(r1: string): (r: Option<(string, string)>)
    ensures r.Some? ==> |r.value.0| > 0 && '"' !in r.value.0
  {
    if |r1| == 0 || !IsWhiteSpace(r1[0]) then None
    else FieldThenMarkers("month:", Lstrip(r1))
  }

  /** The input side of `day + delete_extra_space + month` and the markers after it. */
  function ParseDayMonth(s: string): (r: Option<DayMonth>)
    ensures r.Some? ==> |r.value.day| > 0 && '"' !in r.value.day && |r.value.month| > 0 && '"' !in r.value.month
  {
    match QuotedField("day:", s)
    case None => None
    case Some((day, r1)) =>
      match MonthAndMarkers(r1)
      case None => None
      case Some((month, f)) => Some(DayMonth(day, month, f))
  }

  /** The input side of the year form: the year and the marker characters. */
  function ParseYear(s: string): (r: Option<(string, string)>)
    ensures r.Some? ==> |r.value.0| > 0 && '"' !in r.value.0
  {
    FieldThenMarkers("year:", s)
  }

  /** The output side of the day-month form: `D de M'` for each rendering M' of
      the month, followed by the leaked characters when `leak` is set. */
  function DayMonthOutputs(t: MonthTables, p: DayMonth, leak: bool): set<string> {
    if leak then set v | v in MonthOutputs(t, p.month) :: p.day + " de " + v + p.leak
    else set v | v in MonthOutputs(t, p.month) :: p.day + " de " + v
  }

  /** The day-month alternative of the body. */
  function DayMonthForm(t: MonthTables, s: string, leak: bool): set<string> {
    match ParseDayMonth(s)
    case None => {}
    case Some(p) => DayMonthOutputs(t, p, leak)
  }

  /** The year alternative of the body. */
  function YearForm(s: string, leak: bool): set<string> {
    match ParseYear(s)
    case None => {}
    case Some((year, f)) => {if leak then year + f else year}
  }

  /** The record body (`graph_dm | year` with its markers); `leak` selects the
      grammar as written, which copies the `field_order` characters. */
  function DateBodyWith(t: MonthTables, s: string, leak: bool): set<string> {
    DayMonthForm(t, s, leak) + YearForm(s, leak)
  }

  /** The record body as written. */
  function DateBodyAsWritten(t: MonthTables, s: string): set<string> {
    DateBodyWith(t, s, true)
  }

  /** The record body with the marker characters deleted. */
  function DateBody(t: MonthTables, s: string): set<string> {
    DateBodyWith(t, s, false)
  }

  /** The corrected body as a grammar. */
  function BodyGrammar(t: MonthTables): Grammar {
    (m: string) => DateBody(t, m)
  }

  /** The body as written, as a grammar. */
  function BodyGrammarAsWritten(t: MonthTables): Grammar {
    (m: string) => DateBodyAsWritten(t, m)
  }

  /** The whole verbalizer: `delete_tokens` around the corrected body. */
  function DateVerbalize(t: MonthTables, s: string): set<string> {
    DeleteTokens("date", BodyGrammar(t), s)
  }

  /** The whole verbalizer as written: `delete_tokens` around the body that
      copies the `field_order` characters. */
  function DateVerbalizeAsWritten(t: MonthTables, s: string): set<string> {
    DeleteTokens("date", BodyGrammarAsWritten(t), s)
  }

  // ---------------------------------------------------------------------------
  // Serialized records, as the date tagger writes them

  /** A field as the tagger writes it: `key "V"`. */
  function FieldText(key: string, v: string): string {
    key + " \"" + v + "\""
  }

  /** `day: "D" month: "M"` followed by markers. */
  function DayMonthText(day: string, month: string, ms: seq<Marker>): string {
    FieldText("day:", day) + " " + FieldText("month:", month) + MarkersText(ms)
  }

  /** `year: "Y"` followed by markers. */
  function YearText(year: string, ms: seq<Marker>): string {
    FieldText("year:", year) + MarkersText(ms)
  }

  lemma LstripExact(w: string, rest: string)
    requires AllWhiteSpace(w)
    requires rest == [] || !IsWhiteSpace(rest[0])
    ensures Lstrip(w + rest) == rest
  {
    var s := w + rest;
    var k := SkipWhiteSpace(s);
    forall i | 0 <= i < |w| ensures IsWhiteSpace(s[i]) {
      assert s[i] == w[i];
    }
    forall i | 0 <= i < k ensures IsWhiteSpace(s[i]) {
      assert s[i] == s[..k][i];
    }
    if rest != [] {
      assert s[|w|] == rest[0];
    }
    assert k == |w|;
    assert s[|w|..] == rest;
  }

  lemma AfterKeyText(key: string, w: string, rest: string)
    requires AllWhiteSpace(w)
    requires rest == [] || !IsWhiteSpace(rest[0])
    ensures AfterKey(key, key + w + rest) == Some(rest)
  {
    var s := key + w + rest;
    assert s[..|key|] == key;
    assert s[|key|..] == w + rest;
    LstripExact(w, rest);
  }

  lemma FirstQuoteAt(v: string, rest: string)
    requires '"' !in v
    ensures FirstQuote(v + "\"" + rest) == |v|
  {
    var s := v + "\"" + rest;
    assert s[|v|] == '"';
    forall i | 0 <= i < |v| ensures s[i] != '"' {
      assert s[i] == v[i];
    }
  }

  lemma QuotedText(v: string, rest: string)
    requires |v| > 0 && '"' !in v
    ensures Quoted("\"" + v + "\"" + rest) == Some((v, rest))
  {
    var u := "\"" + v + "\"" + rest;
    assert u[1..] == v + "\"" + rest;
    FirstQuoteAt(v, rest);
    assert u[1..|v| + 1] == v;
    assert u[|v| + 2..] == rest;
  }

  /** Reading `key "V"` written with one space gives V and the rest. */
  lemma QuotedFieldText(key: string, v: string, rest: string)
    requires |v| > 0 && '"' !in v
    ensures QuotedField(key, FieldText(key, v) + rest) == Some((v, rest))
  {
    var q := "\"" + v + "\"" + rest;
    assert FieldText(key, v) + rest == key + " " + q;
    AfterKeyText(key, " ", q);
    QuotedText(v, rest);
  }

  /** What the grammar as written copies from one marker. */
  function MarkerLeak(m: Marker): string {
    if m.FieldOrder? then [m.field] else []
  }

  lemma PreserveOrderMarkerText(rest: string)
    ensures PreserveOrderMarker(PreserveOrderText[1..] + rest) == Some(rest)
    ensures FieldOrderMarker(PreserveOrderText[1..] + rest) == None
  {
    var v := "true" + rest;
    assert PreserveOrderText[1..] + rest == PreserveOrderKey + " " + v;
    AfterKeyText(PreserveOrderKey, " ", v);
    assert v[..4] == "true";
    assert v[4..] == rest;
    assert (PreserveOrderKey + " " + v)[0] == 'p';
  }

  lemma FieldOrderMarkerText(c: char, rest: string)
    requires c != '"'
    ensures PreserveOrderMarker(MarkerText(FieldOrder(c))[1..] + rest) == None
    ensures FieldOrderMarker(MarkerText(FieldOrder(c))[1..] + rest) == Some((c, rest))
  {
    var v := "\"" + [c] + "\"" + rest;
    var t := MarkerText(FieldOrder(c))[1..] + rest;
    assert FieldOrderOpen[1..] == FieldOrderKey + " \"";
    assert t == FieldOrderKey + " " + v;
    assert t[0] == 'f';
    AfterKeyText(FieldOrderKey, " ", v);
    assert v[1] == c;
    assert v[3..] == rest;
  }

  lemma OneMarkerText(m: Marker, rest: string)
    requires m.FieldOrder? ==> m.field != '"'
    ensures OneMarker(MarkerText(m)[1..] + rest) == Some((MarkerLeak(m), rest))
  {
    if m.PreserveOrder? {
      PreserveOrderMarkerText(rest);
    } else {
      FieldOrderMarkerText(m.field, rest);
    }
  }

  lemma MarkerTextShape(m: Marker)
    ensures |MarkerText(m)| > 1 && MarkerText(m)[0] == ' ' && !IsWhiteSpace(MarkerText(m)[1])
  {
  }

  lemma MarkersTextCons(ms: seq<Marker>)
    requires |ms| > 0
    ensures MarkersText(ms) == " " + (MarkerText(ms[0])[1..] + MarkersText(ms[1..]))
    ensures !IsWhiteSpace((MarkerText(ms[0])[1..] + MarkersText(ms[1..]))[0])
  {
    var a := MarkerText(ms[0]);
    var r := MarkersText(ms[1..]);
    assert MarkersText(ms) == a + r;
    MarkerTextShape(ms[0]);
    SplitLeadingSpace(a, r);
  }

  lemma SplitLeadingSpace(a: string, r: string)
    requires |a| > 1 && a[0] == ' '
    ensures a + r == " " + (a[1..] + r)
    ensures (a[1..] + r)[0] == a[1]
  {
    assert a == " " + a[1..];
  }

  /** Reading the text of valid markers yields the characters the grammar as
      written copies: their field characters. */
  lemma {:induction false} OrderTailOfMarkers(ms: seq<Marker>)
    requires ValidMarkers(ms)
    ensures OrderTailFields(MarkersText(ms)) == Some(FieldChars(ms))
  {
    if |ms| == 0 {
      assert Lstrip([]) == [];
    } else {
      ValidMarkersTail(ms);
      OrderTailOfMarkers(ms[1..]);
      var rest := MarkersText(ms[1..]);
      var body := MarkerText(ms[0])[1..] + rest;
      MarkersTextCons(ms);
      LstripExact(" ", body);
      OneMarkerText(ms[0], rest);
      assert FieldChars(ms) == MarkerLeak(ms[0]) + FieldChars(ms[1..]);
    }
  }

  /** A field whose first character differs from the key's is not that field. */
  lemma OtherField(key: string, s: string)
    requires |key| > 0 && |s| > 0 && s[0] != key[0]
    ensures QuotedField(key, s) == None
  {
  }

  lemma DayFieldOfText(day: string, month: string, ms: seq<Marker>)
    requires |day| > 0 && '"' !in day
    ensures QuotedField("day:", DayMonthText(day, month, ms)) == Some((day, " " + (FieldText("month:", month) + MarkersText(ms))))
  {
    var m := FieldText("month:", month) + MarkersText(ms);
    assert DayMonthText(day, month, ms) == FieldText("day:", day) + (" " + m);
    QuotedFieldText("day:", day, " " + m);
  }

  lemma MonthFieldOfText(month: string, ms: seq<Marker>)
    requires |month| > 0 && '"' !in month
    ensures Lstrip(" " + (FieldText("month:", month) + MarkersText(ms))) == FieldText("month:", month) + MarkersText(ms)
    ensures QuotedField("month:", FieldText("month:", month) + MarkersText(ms)) == Some((month, MarkersText(ms)))
  {
    var m := FieldText("month:", month) + MarkersText(ms);
    assert m[0] == 'm';
    LstripExact(" ", m);
    QuotedFieldText("month:", month, MarkersText(ms));
  }

  /** The day-month record reads back as its day, its month, and the field
      characters of its markers. */
  lemma ParseDayMonthText(day: string, month: string, ms: seq<Marker>)
    requires |day| > 0 && '"' !in day
    requires |month| > 0 && '"' !in month
    requires ValidMarkers(ms)
    ensures ParseDayMonth(DayMonthText(day, month, ms)) == Some(DayMonth(day, month, FieldChars(ms)))
    ensures ParseYear(DayMonthText(day, month, ms)) == None
  {
    DayMonthOfText(day, month, ms);
    var s := DayMonthText(day, month, ms);
    assert s[0] == 'd';
    OtherField("year:", s);
  }

  lemma DayMonthOfText(day: string, month: string, ms: seq<Marker>)
    requires |day| > 0 && '"' !in day
    requires |month| > 0 && '"' !in month
    requires ValidMarkers(ms)
    ensures ParseDayMonth(DayMonthText(day, month, ms)) == Some(DayMonth(day, month, FieldChars(ms)))
  {
    var m := FieldText("month:", month) + MarkersText(ms);
    DayFieldOfText(day, month, ms);
    MonthFieldOfText(month, ms);
    OrderTailOfMarkers(ms);
    assert FieldThenMarkers("month:", m) == Some((month, FieldChars(ms)));
    assert MonthAndMarkers(" " + m) == Some((month, FieldChars(ms)));
  }

  /** The year record reads back as its year and its field characters. */
  lemma ParseYearText(year: string, ms: seq<Marker>)
    requires |year| > 0 && '"' !in year
    requires ValidMarkers(ms)
    ensures ParseYear(YearText(year, ms)) == Some((year, FieldChars(ms)))
    ensures ParseDayMonth(YearText(year, ms)) == None
  {
    var s := YearText(year, ms);
    QuotedFieldText("year:", year, MarkersText(ms));
    OrderTailOfMarkers(ms);
    assert s[0] == 'y';
    OtherField("day:", s);
  }

  /** The day-month record is verbalized as exactly `D de M'` for every rendering M'
      of the month; the markers leave nothing behind, except as written, where
      their field characters trail the output. */
  lemma DayMonthRoundTrip(t: MonthTables, day: string, month: string, ms: seq<Marker>)
    requires |day| > 0 && '"' !in day
    requires |month| > 0 && '"' !in month
    requires ValidMarkers(ms)
    ensures DateBody(t, DayMonthText(day, month, ms)) == set v | v in MonthOutputs(t, month) :: day + " de " + v
    ensures DateBodyAsWritten(t, DayMonthText(day, month, ms)) ==
              set v | v in MonthOutputs(t, month) :: day + " de " + v + FieldChars(ms)
  {
    var s := DayMonthText(day, month, ms);
    var p := DayMonth(day, month, FieldChars(ms));
    ParseDayMonthText(day, month, ms);
    BodyOfDayMonth(t, s, p);
  }

  /** A body that reads as a day-month record renders that record. */
  lemma BodyOfDayMonth(t: MonthTables, s: string, p: DayMonth)
    requires ParseDayMonth(s) == Some(p) && ParseYear(s) == None
    ensures DateBody(t, s) == DayMonthOutputs(t, p, false)
    ensures DateBodyAsWritten(t, s) == DayMonthOutputs(t, p, true)
  {
    BodyOfDayMonthWith(t, s, p, false);
    BodyOfDayMonthWith(t, s, p, true);
  }

  lemma BodyOfDayMonthWith(t: MonthTables, s: string, p: DayMonth, leak: bool)
    requires ParseDayMonth(s) == Some(p) && ParseYear(s) == None
    ensures DateBodyWith(t, s, leak) == DayMonthOutputs(t, p, leak)
  {
    DayMonthFormOf(t, s, p, leak);
    YearFormOfNone(s, leak);
    var d := DayMonthForm(t, s, leak);
    assert d + {} == d;
  }

  lemma DayMonthFormOf(t: MonthTables, s: string, p: DayMonth, leak: bool)
    requires ParseDayMonth(s) == Some(p)
    ensures DayMonthForm(t, s, leak) == DayMonthOutputs(t, p, leak)
  {
  }

  lemma YearFormOfNone(s: string, leak: bool)
    requires ParseYear(s) == None
    ensures YearForm(s, leak) == {}
  {
  }

  /** The year record is verbalized as exactly its value. */
  lemma YearRoundTrip(t: MonthTables, year: string, ms: seq<Marker>)
    requires |year| > 0 && '"' !in year
    requires ValidMarkers(ms)
    ensures DateBody(t, YearText(year, ms)) == {year}
    ensures DateBodyAsWritten(t, YearText(year, ms)) == {year + FieldChars(ms)}
  {
    ParseYearText(year, ms);
  }

  /** Only the day-first and the year records are read: a body that starts with
      anything else, the month for one, is rejected. */
  lemma OnlyDayFirstOrYear(t: MonthTables, s: string)
    requires !StartsWith(s, "day:") && !StartsWith(s, "year:")
    ensures DateBody(t, s) == {}
  {
  }

  /** An empty day value is rejected. */
  lemma EmptyDayRejected(t: MonthTables, rest: string)
    ensures DateBody(t, "day: \"\"" + rest) == {}
  {
    var s := "day: \"\"" + rest;
    var u := "\"\"" + rest;
    assert s == "day:" + " " + u;
    AfterKeyText("day:", " ", u);
    assert u[1..][0] == '"';
    assert s[0] == 'd';
  }

  /** The day and month fields must be separated by at least one whitespace. */
  lemma DayMonthNeedSeparator(t: MonthTables, day: string, rest: string)
    requires |day| > 0 && '"' !in day
    requires rest == [] || !IsWhiteSpace(rest[0])
    ensures DateBody(t, FieldText("day:", day) + rest) == {}
  {
    var s := FieldText("day:", day) + rest;
    QuotedFieldText("day:", day, rest);
    assert ParseDayMonth(s) == None;
    assert s[0] == 'd';
    OtherField("year:", s);
  }

  lemma DayMonthOutputsLeak(t: MonthTables, p: DayMonth)
    ensures DayMonthOutputs(t, p, false) == {} <==> DayMonthOutputs(t, p, true) == {}
    ensures p.leak == [] ==> DayMonthOutputs(t, p, true) == DayMonthOutputs(t, p, false)
  {
    var ms := MonthOutputs(t, p.month);
    if ms != {} {
      var v :| v in ms;
      assert p.day + " de " + v in DayMonthOutputs(t, p, false);
      assert p.day + " de " + v + p.leak in DayMonthOutputs(t, p, true);
    }
    if p.leak == [] {
      forall v | v in ms ensures p.day + " de " + v + p.leak == p.day + " de " + v {
      }
    }
  }

  lemma DayMonthFormLeak(t: MonthTables, s: string)
    ensures DayMonthForm(t, s, false) == {} <==> DayMonthForm(t, s, true) == {}
    ensures ParseDayMonth(s).Some? ==> ParseDayMonth(s).value.leak == [] ==>
              DayMonthForm(t, s, true) == DayMonthForm(t, s, false)
  {
    if ParseDayMonth(s).Some? {
      DayMonthOutputsLeak(t, ParseDayMonth(s).value);
    }
  }

  lemma YearFormLeak(s: string)
    ensures YearForm(s, false) == {} <==> YearForm(s, true) == {}
    ensures ParseYear(s).Some? ==> ParseYear(s).value.1 == [] ==> YearForm(s, true) == YearForm(s, false)
  {
    if ParseYear(s).Some? {
      var f := ParseYear(s).value.1;
      assert f == [] ==> ParseYear(s).value.0 + f == ParseYear(s).value.0;
    }
  }

  /** The correction changes no acceptance: as written and corrected, the body
      rejects the same inputs, and where no `field_order` character is read the
      two agree. */
  lemma CorrectionKeepsAcceptance(t: MonthTables, s: string)
    ensures DateBody(t, s) == {} <==> DateBodyAsWritten(t, s) == {}
    ensures (ParseDayMonth(s).Some? ==> ParseDayMonth(s).value.leak == [])
         && (ParseYear(s).Some? ==> ParseYear(s).value.1 == [])
         ==> DateBodyAsWritten(t, s) == DateBody(t, s)
  {
    DayMonthFormLeak(t, s);
    YearFormLeak(s);
  }

  /** A month in neither table is rejected. */
  lemma UnknownMonthRejected(t: MonthTables, day: string, month: string, ms: seq<Marker>)
    requires |day| > 0 && '"' !in day
    requires |month| > 0 && '"' !in month
    requires ValidMarkers(ms)
    requires month !in t.months && month !in t.cased
    ensures DateBody(t, DayMonthText(day, month, ms)) == {}
  {
    DayMonthRoundTrip(t, day, month, ms);
  }

  // ---------------------------------------------------------------------------
  // Whitespace after the body

  lemma StartsWithAppendWhiteSpace(s: string, w: string, lit: string)
    requires NoWhiteSpace(lit) && AllWhiteSpace(w)
    ensures StartsWith(s + w, lit) <==> StartsWith(s, lit)
    ensures StartsWith(s, lit) ==> (s + w)[|lit|..] == s[|lit|..] + w
  {
    if |lit| > |s| && |lit| <= |s + w| {
      assert (s + w)[|s|] == w[0];
      assert (s + w)[..|lit|][|s|] == (s + w)[|s|];
      assert !IsWhiteSpace(lit[|s|]);
    }
    if |lit| <= |s| {
      assert (s + w)[..|lit|] == s[..|lit|];
    }
  }

  /** Text grown by trailing whitespace: unchanged when it is empty. */
  function Grow(v: string, w: string): string {
    if |v| == 0 then [] else v + w
  }

  lemma LstripAppendWhiteSpace(s: string, w: string)
    requires AllWhiteSpace(w)
    ensures Lstrip(s + w) == Grow(Lstrip(s), w)
  {
    var k := SkipWhiteSpace(s);
    var k' := SkipWhiteSpace(s + w);
    forall i | 0 <= i < k ensures IsWhiteSpace((s + w)[i]) {
      assert (s + w)[i] == s[..k][i];
    }
    forall i | 0 <= i < k' ensures IsWhiteSpace((s + w)[i]) {
      assert (s + w)[i] == (s + w)[..k'][i];
    }
    if k < |s| {
      assert (s + w)[k] == s[k];
      assert (s + w)[k..] == s[k..] + w;
    } else {
      forall i | |s| <= i < |s + w| ensures IsWhiteSpace((s + w)[i]) {
        assert (s + w)[i] == w[i - |s|];
      }
    }
  }

  lemma AfterKeyAppendWhiteSpace(key: string, s: string, w: string)
    requires NoWhiteSpace(key) && AllWhiteSpace(w)
    ensures AfterKey(key, s + w).Some? == AfterKey(key, s).Some?
    ensures AfterKey(key, s).Some? ==> AfterKey(key, s + w).value == Grow(AfterKey(key, s).value, w)
  {
    StartsWithAppendWhiteSpace(s, w, key);
    if StartsWith(s, key) {
      LstripAppendWhiteSpace(s[|key|..], w);
    }
  }

  lemma FirstQuoteAppendWhiteSpace(s: string, w: string)
    requires AllWhiteSpace(w)
    ensures FirstQuote(s) < |s| ==> FirstQuote(s + w) == FirstQuote(s)
    ensures FirstQuote(s) == |s| ==> FirstQuote(s + w) == |s + w|
  {
    var q := FirstQuote(s);
    var q' := FirstQuote(s + w);
    forall i | 0 <= i < q ensures (s + w)[i] != '"' {
      assert (s + w)[i] == s[i];
    }
    forall i | 0 <= i < q' && i < |s| ensures s[i] != '"' {
      assert (s + w)[i] == s[i];
    }
    forall i | |s| <= i < |s + w| ensures (s + w)[i] != '"' {
      assert (s + w)[i] == w[i - |s|];
    }
    if q < |s| {
      assert (s + w)[q] == s[q];
    }
  }

  lemma QuotedAppendWhiteSpace(u: string, w: string)
    requires AllWhiteSpace(w)
    ensures Quoted(Grow(u, w)).Some? == Quoted(u).Some?
    ensures Quoted(u).Some? ==> Quoted(Grow(u, w)).value == (Quoted(u).value.0, Quoted(u).value.1 + w)
  {
    if |u| > 0 && u[0] == '"' {
      assert (u + w)[1..] == u[1..] + w;
      FirstQuoteAppendWhiteSpace(u[1..], w);
      var q := FirstQuote(u[1..]);
      if 0 < q < |u| - 1 {
        assert (u + w)[1..q + 1] == u[1..q + 1];
        assert (u + w)[q + 2..] == u[q + 2..] + w;
      }
    }
  }

  lemma QuotedFieldAppendWhiteSpace(key: string, s: string, w: string)
    requires NoWhiteSpace(key) && AllWhiteSpace(w)
    ensures QuotedField(key, s + w).Some? == QuotedField(key, s).Some?
    ensures QuotedField(key, s).Some? ==>
              QuotedField(key, s + w).value == (QuotedField(key, s).value.0, QuotedField(key, s).value.1 + w)
  {
    AfterKeyAppendWhiteSpace(key, s, w);
    if AfterKey(key, s).Some? {
      QuotedAppendWhiteSpace(AfterKey(key, s).value, w);
    }
  }

  lemma PreserveOrderAppendWhiteSpace(t: string, w: string)
    requires AllWhiteSpace(w)
    ensures PreserveOrderMarker(t + w).Some? == PreserveOrderMarker(t).Some?
    ensures PreserveOrderMarker(t).Some? ==> PreserveOrderMarker(t + w).value == PreserveOrderMarker(t).value + w
  {
    AfterKeyAppendWhiteSpace(PreserveOrderKey, t, w);
    if AfterKey(PreserveOrderKey, t).Some? {
      var v := AfterKey(PreserveOrderKey, t).value;
      if |v| > 0 {
        StartsWithAppendWhiteSpace(v, w, "true");
      }
    }
  }

  lemma FieldOrderAppendWhiteSpace(t: string, w: string)
    requires AllWhiteSpace(w)
    ensures FieldOrderMarker(t + w).Some? == FieldOrderMarker(t).Some?
    ensures FieldOrderMarker(t).Some? ==>
              FieldOrderMarker(t + w).value == (FieldOrderMarker(t).value.0, FieldOrderMarker(t).value.1 + w)
  {
    AfterKeyAppendWhiteSpace(FieldOrderKey, t, w);
    if AfterKey(FieldOrderKey, t).Some? {
      var v := AfterKey(FieldOrderKey, t).value;
      if |v| >= 3 {
        assert (v + w)[..3] == v[..3];
        assert (v + w)[3..] == v[3..] + w;
      } else if |v| > 0 && |v + w| >= 3 {
        assert IsWhiteSpace((v + w)[2]);
      }
    }
  }

  lemma OneMarkerAppendWhiteSpace(t: string, w: string)
    requires AllWhiteSpace(w)
    ensures OneMarker(t + w).Some? == OneMarker(t).Some?
    ensures OneMarker(t).Some? ==> OneMarker(t + w).value == (OneMarker(t).value.0, OneMarker(t).value.1 + w)
  {
    PreserveOrderAppendWhiteSpace(t, w);
    FieldOrderAppendWhiteSpace(t, w);
  }

  lemma {:induction false} OrderTailAppendWhiteSpace(s: string, w: string)
    requires AllWhiteSpace(w)
    ensures OrderTailFields(s + w) == OrderTailFields(s)
    decreases |s|
  {
    LstripAppendWhiteSpace(s, w);
    var t := Lstrip(s);
    if |t| > 0 {
      OneMarkerAppendWhiteSpace(t, w);
      if OneMarker(t).Some? {
        OrderTailAppendWhiteSpace(OneMarker(t).value.1, w);
      }
    }
  }

  lemma FieldThenMarkersAppendWhiteSpace(key: string, s: string, w: string)
    requires NoWhiteSpace(key) && AllWhiteSpace(w)
    ensures FieldThenMarkers(key, s + w) == FieldThenMarkers(key, s)
  {
    QuotedFieldAppendWhiteSpace(key, s, w);
    if QuotedField(key, s).Some? {
      OrderTailAppendWhiteSpace(QuotedField(key, s).value.1, w);
    }
  }

  lemma MonthAndMarkersAppendWhiteSpace(r1: string, w: string)
    requires AllWhiteSpace(w)
    ensures MonthAndMarkers(r1 + w) == MonthAndMarkers(r1)
  {
    LstripAppendWhiteSpace(r1, w);
    if |r1| > 0 {
      assert (r1 + w)[0] == r1[0];
      if |Lstrip(r1)| > 0 {
        FieldThenMarkersAppendWhiteSpace("month:", Lstrip(r1), w);
      }
    } else if |w| > 0 {
      assert Lstrip(r1 + w) == [];
      assert QuotedField("month:", []) == None;
    }
  }

  lemma ParseDayMonthAppendWhiteSpace(s: string, w: string)
    requires AllWhiteSpace(w)
    ensures ParseDayMonth(s + w) == ParseDayMonth(s)
  {
    QuotedFieldAppendWhiteSpace("day:", s, w);
    if QuotedField("day:", s).Some? {
      MonthAndMarkersAppendWhiteSpace(QuotedField("day:", s).value.1, w);
    }
  }

  lemma ParseYearAppendWhiteSpace(s: string, w: string)
    requires AllWhiteSpace(w)
    ensures ParseYear(s + w) == ParseYear(s)
  {
    FieldThenMarkersAppendWhiteSpace("year:", s, w);
  }

  /** Whitespace after a body changes neither reading, so neither output set. */
  lemma DateBodyAppendWhiteSpace(t: MonthTables, m: string, w: string, leak: bool)
    requires AllWhiteSpace(w)
    ensures DateBodyWith(t, m + w, leak) == DateBodyWith(t, m, leak)
  {
    ParseDayMonthAppendWhiteSpace(m, w);
    ParseYearAppendWhiteSpace(m, w);
  }

  /** A body that starts with whitespace is read as neither form. */
  lemma DateBodyLeadingWhiteSpace(t: MonthTables, m: string, leak: bool)
    requires |m| > 0 && IsWhiteSpace(m[0])
    ensures DateBodyWith(t, m, leak) == {}
  {
    assert !StartsWith(m, "day:") && !StartsWith(m, "year:");
  }

  /** The corrected body grammar is blind to whitespace around it, as
      `delete_tokens` needs. */
  lemma DateBodyBlindToSurroundingSpace(t: MonthTables)
    ensures RejectsLeadingWhiteSpace(BodyGrammar(t))
    ensures AbsorbsTrailingWhiteSpace(BodyGrammar(t))
  {
    forall m | |m| > 0 && IsWhiteSpace(m[0]) ensures BodyGrammar(t)(m) == {} {
      DateBodyLeadingWhiteSpace(t, m, false);
    }
    forall m, w | AllWhiteSpace(w) ensures BodyGrammar(t)(m + w) <= BodyGrammar(t)(m) {
      CorrectedAppendWhiteSpace(t, m, w);
    }
  }

  lemma CorrectedAppendWhiteSpace(t: MonthTables, m: string, w: string)
    requires AllWhiteSpace(w)
    ensures BodyGrammar(t)(m + w) == BodyGrammar(t)(m)
  {
    DateBodyAppendWhiteSpace(t, m, w, false);
    assert DateBody(t, m + w) == DateBody(t, m);
  }

  /** So is the body grammar as written. */
  lemma DateBodyAsWrittenBlindToSurroundingSpace(t: MonthTables)
    ensures RejectsLeadingWhiteSpace(BodyGrammarAsWritten(t))
    ensures AbsorbsTrailingWhiteSpace(BodyGrammarAsWritten(t))
  {
    AsWrittenRejectsLeadingWhiteSpace(t);
    AsWrittenAbsorbsTrailingWhiteSpace(t);
  }

  lemma AsWrittenRejectsLeadingWhiteSpace(t: MonthTables)
    ensures RejectsLeadingWhiteSpace(BodyGrammarAsWritten(t))
  {
    forall m | |m| > 0 && IsWhiteSpace(m[0]) ensures BodyGrammarAsWritten(t)(m) == {} {
      DateBodyLeadingWhiteSpace(t, m, true);
    }
  }

  lemma AsWrittenAbsorbsTrailingWhiteSpace(t: MonthTables)
    ensures AbsorbsTrailingWhiteSpace(BodyGrammarAsWritten(t))
  {
    forall m, w | AllWhiteSpace(w) ensures BodyGrammarAsWritten(t)(m + w) <= BodyGrammarAsWritten(t)(m) {
      AsWrittenAppendWhiteSpace(t, m, w);
    }
  }

  lemma AsWrittenAppendWhiteSpace(t: MonthTables, m: string, w: string)
    requires AllWhiteSpace(w)
    ensures BodyGrammarAsWritten(t)(m + w) == BodyGrammarAsWritten(t)(m)
  {
    DateBodyAppendWhiteSpace(t, m, w, true);
    assert DateBodyAsWritten(t, m + w) == DateBodyAsWritten(t, m);
  }

  lemma MarkersTextEnd(ms: seq<Marker>)
    requires |ms| > 0
    ensures |MarkersText(ms)| > 0 && !IsWhiteSpace(MarkersText(ms)[|MarkersText(ms)| - 1])
  {
    if |ms| == 1 {
      assert MarkersText(ms) == MarkerText(ms[0]);
    } else {
      MarkersTextEnd(ms[1..]);
      assert MarkersText(ms) == MarkerText(ms[0]) + MarkersText(ms[1..]);
    }
  }

  lemma DayMonthTextTrimmed(day: string, month: string, ms: seq<Marker>)
    ensures Trimmed(DayMonthText(day, month, ms))
  {
    var x := DayMonthText(day, month, ms);
    assert x[0] == 'd';
    if |ms| == 0 {
      assert x[|x| - 1] == '"';
    } else {
      MarkersTextEnd(ms);
      assert x[|x| - 1] == MarkersText(ms)[|MarkersText(ms)| - 1];
    }
  }

  /** A framed trimmed body is verbalized as the body's outputs, with the
      non-breaking spaces turned back into spaces. */
  lemma VerbalizeBody(t: MonthTables, x: string)
    requires Trimmed(x)
    ensures DateVerbalize(t, AddTokens("date", x)) == set o | o in DateBody(t, x) :: NbspToSpace(o)
  {
    DateBodyBlindToSurroundingSpace(t);
    DeleteTokensOfAddTokens("date", BodyGrammar(t), x);
  }

  /** The same for the body as written. */
  lemma VerbalizeBodyAsWritten(t: MonthTables, x: string)
    requires Trimmed(x)
    ensures DateVerbalizeAsWritten(t, AddTokens("date", x)) == set o | o in DateBodyAsWritten(t, x) :: NbspToSpace(o)
  {
    DateBodyAsWrittenBlindToSurroundingSpace(t);
    DeleteTokensOfAddTokens("date", BodyGrammarAsWritten(t), x);
  }

  lemma NbspImageOfDayMonth(day: string, months: set<string>)
    ensures (set o | o in (set v | v in months :: day + " de " + v) :: NbspToSpace(o))
         == set v | v in months :: NbspToSpace(day + " de " + v)
  {
    var body := set v | v in months :: day + " de " + v;
    var lhs := set o | o in body :: NbspToSpace(o);
    var rhs := set v | v in months :: NbspToSpace(day + " de " + v);
    forall o | o in lhs ensures o in rhs {
      var o' :| o' in body && o == NbspToSpace(o');
      var v :| v in months && o' == day + " de " + v;
    }
    forall o | o in rhs ensures o in lhs {
      var v :| v in months && o == NbspToSpace(day + " de " + v);
      assert day + " de " + v in body;
    }
  }

  lemma NbspImageOfDayMonthLeak(day: string, months: set<string>, leak: string)
    ensures (set o | o in (set v | v in months :: day + " de " + v + leak) :: NbspToSpace(o))
         == set v | v in months :: NbspToSpace(day + " de " + v + leak)
  {
    var body := set v | v in months :: day + " de " + v + leak;
    var lhs := set o | o in body :: NbspToSpace(o);
    var rhs := set v | v in months :: NbspToSpace(day + " de " + v + leak);
    forall o | o in lhs ensures o in rhs {
      var o' :| o' in body && o == NbspToSpace(o');
      var v :| v in months && o' == day + " de " + v + leak;
    }
    forall o | o in rhs ensures o in lhs {
      var v :| v in months && o == NbspToSpace(day + " de " + v + leak);
      assert day + " de " + v + leak in body;
    }
  }

  /** A framed day-month record is verbalized as `D de M'`, with the non-breaking
      spaces of the tagger turned back into spaces. */
  lemma VerbalizeDayMonthRecord(t: MonthTables, day: string, month: string, ms: seq<Marker>)
    requires |day| > 0 && '"' !in day
    requires |month| > 0 && '"' !in month
    requires ValidMarkers(ms)
    ensures DateVerbalize(t, AddTokens("date", DayMonthText(day, month, ms))) ==
              set v | v in MonthOutputs(t, month) :: NbspToSpace(day + " de " + v)
  {
    var x := DayMonthText(day, month, ms);
    DayMonthTextTrimmed(day, month, ms);
    VerbalizeBody(t, x);
    DayMonthRoundTrip(t, day, month, ms);
    NbspImageOfDayMonth(day, MonthOutputs(t, month));
  }

  /** As written, a framed day-month record is verbalized as `D de M'` followed
      by the characters of its `field_order` markers. */
  lemma VerbalizeDayMonthRecordAsWritten(t: MonthTables, day: string, month: string, ms: seq<Marker>)
    requires |day| > 0 && '"' !in day
    requires |month| > 0 && '"' !in month
    requires ValidMarkers(ms)
    ensures DateVerbalizeAsWritten(t, AddTokens("date", DayMonthText(day, month, ms))) ==
              set v | v in MonthOutputs(t, month) :: NbspToSpace(day + " de " + v + FieldChars(ms))
  {
    var x := DayMonthText(day, month, ms);
    DayMonthTextTrimmed(day, month, ms);
    VerbalizeBodyAsWritten(t, x);
    DayMonthRoundTrip(t, day, month, ms);
    NbspImageOfDayMonthLeak(day, MonthOutputs(t, month), FieldChars(ms));
  }

  lemma EneroRecordText()
    ensures DayMonthText("1", "enero", [PreserveOrder]) == "day: \"1\" month: \"enero\" preserve_order: true"
  {
    assert MarkersText([PreserveOrder]) == " preserve_order: true";
  }

  lemma EneroFieldOrderText()
    ensures DayMonthText("1", "enero", [FieldOrder('d')]) == "day: \"1\" month: \"enero\" field_order: \"d\""
  {
    assert MarkersText([FieldOrder('d')]) == " field_order: \"d\"";
  }

  lemma EneroOutputs(t: MonthTables)
    requires t.months == map["enero" := "enero"]
    requires "enero" !in t.cased
    ensures MonthOutputs(t, "enero") == {"enero"}
    ensures (set v | v in MonthOutputs(t, "enero") :: "1" + " de " + v) == {"1 de enero"}
    ensures (set v | v in MonthOutputs(t, "enero") :: "1" + " de " + v + "d") == {"1 de enerod"}
  {
    assert MonthOutputs(t, "enero") == {"enero"};
    assert "1" + " de " + "enero" == "1 de enero";
    assert "1" + " de " + "enero" + "d" == "1 de enerod";
  }

  lemma NoNbspUnchanged(x: string)
    requires Nbsp !in x
    ensures NbspToSpace(x) == x
  {
    forall i | 0 <= i < |x| ensures NbspToSpace(x)[i] == x[i] {
      assert x[i] in x;
    }
  }

  lemma EneroRendered(t: MonthTables)
    requires t.months == map["enero" := "enero"]
    requires "enero" !in t.cased
    ensures (set v | v in MonthOutputs(t, "enero") :: NbspToSpace("1" + " de " + v)) == {"1 de enero"}
  {
    EneroOutputs(t);
    assert "1" + " de " + "enero" == "1 de enero";
    assert Nbsp !in "1 de enero";
    NoNbspUnchanged("1 de enero");
  }

  /** The record `day: "1" month: "enero" preserve_order: true`, framed as
      `date { ... }`, is verbalized as `1 de enero`, both by the verbalizer as
      written and by the corrected one: a `preserve_order` marker leaks nothing. */
  lemma EneroExample(t: MonthTables)
    requires t.months == map["enero" := "enero"]
    requires "enero" !in t.cased
    ensures DateVerbalize(t, AddTokens("date", "day: \"1\" month: \"enero\" preserve_order: true")) == {"1 de enero"}
    ensures DateVerbalizeAsWritten(t, AddTokens("date", "day: \"1\" month: \"enero\" preserve_order: true")) == {"1 de enero"}
  {
    EneroCorrected(t);
    EneroAsWritten(t);
  }

  lemma EneroCorrected(t: MonthTables)
    requires t.months == map["enero" := "enero"]
    requires "enero" !in t.cased
    ensures DateVerbalize(t, AddTokens("date", "day: \"1\" month: \"enero\" preserve_order: true")) == {"1 de enero"}
  {
    EneroRecordText();
    assert ValidMarkers([PreserveOrder]);
    VerbalizeDayMonthRecord(t, "1", "enero", [PreserveOrder]);
    EneroRendered(t);
  }

  lemma EneroAsWritten(t: MonthTables)
    requires t.months == map["enero" := "enero"]
    requires "enero" !in t.cased
    ensures DateVerbalizeAsWritten(t, AddTokens("date", "day: \"1\" month: \"enero\" preserve_order: true")) == {"1 de enero"}
  {
    EneroRecordText();
    assert ValidMarkers([PreserveOrder]);
    VerbalizeDayMonthRecordAsWritten(t, "1", "enero", [PreserveOrder]);
    var leak := FieldChars([PreserveOrder]);
    assert leak == "";
    assert forall v :: NbspToSpace("1" + " de " + v + leak) == NbspToSpace("1" + " de " + v);
    EneroRendered(t);
  }

  /** As written, a `field_order` marker leaks its character: the record
      `day: "1" month: "enero" field_order: "d"` becomes `1 de enerod`. */
  lemma FieldOrderLeaksIntoDate(t: MonthTables)
    requires t.months == map["enero" := "enero"]
    requires "enero" !in t.cased
    ensures DateBodyAsWritten(t, "day: \"1\" month: \"enero\" field_order: \"d\"") == {"1 de enerod"}
    ensures DateBody(t, "day: \"1\" month: \"enero\" field_order: \"d\"") == {"1 de enero"}
  {
    EneroFieldOrderText();
    assert ValidMarkers([FieldOrder('d')]);
    DayMonthRoundTrip(t, "1", "enero", [FieldOrder('d')]);
    assert FieldChars([FieldOrder('d')]) == "d";
    EneroOutputs(t);
  }

  lemma EneroLeakRendered(t: MonthTables)
    requires t.months == map["enero" := "enero"]
    requires "enero" !in t.cased
    ensures (set v | v in MonthOutputs(t, "enero") :: NbspToSpace("1" + " de " + v + "d")) == {"1 de enerod"}
  {
    EneroOutputs(t);
    assert "1" + " de " + "enero" + "d" == "1 de enerod";
    assert Nbsp !in "1 de enerod";
    NoNbspUnchanged("1 de enerod");
  }

  lemma FramedFieldOrderAsWritten(t: MonthTables)
    requires t.months == map["enero" := "enero"]
    requires "enero" !in t.cased
    ensures DateVerbalizeAsWritten(t, AddTokens("date", "day: \"1\" month: \"enero\" field_order: \"d\"")) == {"1 de enerod"}
  {
    EneroFieldOrderText();
    assert ValidMarkers([FieldOrder('d')]);
    assert FieldChars([FieldOrder('d')]) == "d";
    VerbalizeDayMonthRecordAsWritten(t, "1", "enero", [FieldOrder('d')]);
    EneroLeakRendered(t);
  }

  lemma FramedFieldOrderCorrected(t: MonthTables)
    requires t.months == map["enero" := "enero"]
    requires "enero" !in t.cased
    ensures DateVerbalize(t, AddTokens("date", "day: \"1\" month: \"enero\" field_order: \"d\"")) == {"1 de enero"}
  {
    EneroFieldOrderText();
    assert ValidMarkers([FieldOrder('d')]);
    VerbalizeDayMonthRecord(t, "1", "enero", [FieldOrder('d')]);
    EneroRendered(t);
  }

  /** Framed as `date { ... }`, the same record is verbalized as `1 de enerod` by
      the grammar as written and as `1 de enero` by the corrected one. */
  lemma FramedFieldOrderLeak(t: MonthTables)
    requires t.months == map["enero" := "enero"]
    requires "enero" !in t.cased
    ensures DateVerbalizeAsWritten(t, AddTokens("date", "day: \"1\" month: \"enero\" field_order: \"d\"")) == {"1 de enerod"}
    ensures DateVerbalize(t, AddTokens("date", "day: \"1\" month: \"enero\" field_order: \"d\"")) == {"1 de enero"}
  {
    FramedFieldOrderAsWritten(t);
    FramedFieldOrderCorrected(t);
  }
}
