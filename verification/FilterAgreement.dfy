// When the index filter and the SQL conditions admit the same rows.
module FilterAgreement {
  import opened Prelude
  import opened Calendar
  import opened Records
  import opened SearchFilter

  // ---------- rows that no reading tells apart ----------

  function With(v: Values, field: Field, x: string): Values {
    match field
    case Country => v.(country := x)
    case Store => v.(store := x)
    case Sku => v.(sku := x)
  }

  lemma ClauseSeesNoQuotes(c: Clause, field: Field, d: Doc, e: Doc)
    requires QuoteFree(c) && !NoQuote(FieldOf(field, d)) && !NoQuote(FieldOf(field, e))
    requires d.date == e.date && forall other: Field :: other != field ==> FieldOf(other, d) == FieldOf(other, e)
    ensures ClauseHolds(c, d) <==> ClauseHolds(c, e)
  {
    hide NoQuote, FieldOf;
    match c {
      case Only(t) => assert t.field != field ==> FieldOf(t.field, d) == FieldOf(t.field, e);
      case AnyOf(ts) =>
        forall t | t in ts
          ensures TermHolds(t, d) <==> TermHolds(t, e)
        {
          var i :| 0 <= i < |ts| && ts[i] == t;
          assert NoQuote(ts[i].value);
          assert t.field != field ==> FieldOf(t.field, d) == FieldOf(t.field, e);
        }
      case _ =>
    }
  }

  // Whatever the text of a request, the index admits both or neither of two rows that differ
  // only in one component and hold a double quote there.
  lemma QuotedLookAlike(f: Filters, id: Id, v: Values, field: Field, x: string, y: string)
    requires !NoQuote(x) && !NoQuote(y)
    ensures IndexAdmits(f, DocOf(id, With(v, field, x))) <==> IndexAdmits(f, DocOf(id, With(v, field, y)))
  {
    hide NoQuote, QuoteFree, ClauseHolds, FilterText;
    var d, e := DocOf(id, With(v, field, x)), DocOf(id, With(v, field, y));
    if FilterText(f).Some? {
      ClausesAreQuoteFree(FilterText(f).value);
    }
    var read := ReadFilter(FilterText(f));
    if read.Some? {
      forall c | c in read.value
        ensures ClauseHolds(c, d) <==> ClauseHolds(c, e)
      {
        ClauseSeesNoQuotes(c, field, d, e);
      }
    }
  }

  // ---------- texts that end after their last quote in an empty date range ----------

  // The text ends in `tail`, and a double quote stands just before it.
  predicate EndsQuoted(s: string, tail: string) {
    |s| > |tail| && s[|s| - |tail|..] == tail && s[|s| - |tail| - 1] == '"'
  }

  // Stripping a prefix whose only quote can be its last character leaves the tail whole.
  lemma StripKeepsTail(s: string, prefix: string, tail: string)
    requires EndsQuoted(s, tail) && Strip(s, prefix).Some?
    requires forall i :: 0 <= i < |prefix| - 1 ==> prefix[i] != '"'
    ensures Strip(s, prefix).value == tail || EndsQuoted(Strip(s, prefix).value, tail)
    ensures Strip(s, prefix).value == tail ==> prefix != "" && prefix[|prefix| - 1] == '"'
  {
    var q, rest := |s| - |tail| - 1, Strip(s, prefix).value;
    assert forall i :: 0 <= i < |prefix| ==> s[..|prefix|][i] == s[i];
    assert q >= |prefix| - 1;
    if q >= |prefix| {
      assert rest[|rest| - |tail|..] == s[q + 1..] && rest[|rest| - |tail| - 1] == s[q];
    }
  }

  lemma {:induction false} QuotedKeepsTail(s: string, tail: string)
    requires EndsQuoted(s, tail) && ReadQuoted(s).Some?
    ensures ReadQuoted(s).value.1 == tail || EndsQuoted(ReadQuoted(s).value.1, tail)
  {
    assert s[1..] == tail || EndsQuoted(s[1..], tail) by {
      if |s| > |tail| + 1 {
        assert s[1..][|s| - 1 - |tail|..] == s[|s| - |tail|..];
      }
    }
    if s[0] != '"' {
      QuotedKeepsTail(s[1..], tail);
    }
  }

  lemma {:induction false} NoQuoteToRead(s: string)
    requires NoQuote(s)
    ensures ReadQuoted(s) == None
  {
    if s != "" {
      NoQuoteToRead(s[1..]);
    }
  }

  lemma FieldKeepsTail(s: string, tail: string)
    requires EndsQuoted(s, tail) && ReadField(s).Some?
    ensures ReadField(s).value.1 == tail || EndsQuoted(ReadField(s).value.1, tail)
  {
    hide EndsQuoted;
    if Strip(s, Open(Country)).Some? { StripKeepsTail(s, Open(Country), tail); }
    if Strip(s, Open(Store)).Some? { StripKeepsTail(s, Open(Store), tail); }
    if Strip(s, Open(Sku)).Some? { StripKeepsTail(s, Open(Sku), tail); }
  }

  lemma TermKeepsTail(s: string, tail: string)
    requires EndsQuoted(s, tail) && NoQuote(tail) && ReadTerm(s).Some?
    ensures ReadTerm(s).value.1 == tail || EndsQuoted(ReadTerm(s).value.1, tail)
  {
    hide EndsQuoted, ReadField;
    FieldKeepsTail(s, tail);
    var quoted := ReadField(s).value.1;
    if quoted == tail {
      NoQuoteToRead(tail);
    } else {
      QuotedKeepsTail(quoted, tail);
    }
  }

  // A list of terms reaches past the last quote only over a closing parenthesis.
  lemma {:induction false} TermsKeepTail(s: string, tail: string)
    requires EndsQuoted(s, tail) && NoQuote(tail) && ReadTerms(s).Some? && Strip(tail, " || ").None?
    ensures var rest := ReadTerms(s).value.1;
            EndsQuoted(rest, tail) || Strip(tail, ")") == Some(rest)
    decreases |s|
  {
    hide EndsQuoted, ReadTerm;
    TermKeepsTail(s, tail);
    var rest := ReadTerm(s).value.1;
    if Strip(rest, ")").Some? {
      if rest != tail { StripKeepsTail(rest, ")", tail); }
    } else {
      StripKeepsTail(rest, " || ", tail);
      TermsKeepTail(Strip(rest, " || ").value, tail);
    }
  }

  lemma {:induction false} NatKeepsTail(s: string, tail: string, sofar: int)
    requires EndsQuoted(s, tail)
    ensures EndsQuoted(ReadNat(s, sofar).1, tail)
  {
    if IsDigit(s[0]) {
      assert |s| > |tail| + 1;
      assert s[1..][|s| - 1 - |tail|..] == s[|s| - |tail|..];
      NatKeepsTail(s[1..], tail, 10 * sofar + DigitValue(s[0]));
    }
  }

  lemma IntKeepsTail(s: string, tail: string)
    requires EndsQuoted(s, tail)
    ensures EndsQuoted(ReadInt(s).1, tail)
  {
    hide EndsQuoted, ReadNat;
    if Strip(s, "-").Some? {
      StripKeepsTail(s, "-", tail);
      NatKeepsTail(Strip(s, "-").value, tail, 0);
    } else {
      NatKeepsTail(s, tail, 0);
    }
  }

  lemma RangeKeepsTail(s: string, tail: string)
    requires EndsQuoted(s, tail) && ReadRange(s).Some?
    ensures EndsQuoted(ReadRange(s).value.1, tail)
  {
    hide EndsQuoted, ReadInt;
    IntKeepsTail(s, tail);
    var rest := ReadInt(s).1;
    StripKeepsTail(rest, "..", tail);
    var next := Strip(rest, "..").value;
    IntKeepsTail(next, tail);
    StripKeepsTail(ReadInt(next).1, "]", tail);
  }

  lemma DateKeepsTail(s: string, tail: string)
    requires EndsQuoted(s, tail) && ReadDate(s).Some?
    ensures EndsQuoted(ReadDate(s).value.1, tail)
  {
    hide EndsQuoted, ReadInt, ReadRange;
    if Strip(s, "<= ").Some? {
      StripKeepsTail(s, "<= ", tail);
      IntKeepsTail(Strip(s, "<= ").value, tail);
    } else if Strip(s, ">= ").Some? {
      StripKeepsTail(s, ">= ", tail);
      IntKeepsTail(Strip(s, ">= ").value, tail);
    } else {
      StripKeepsTail(s, " [", tail);
      RangeKeepsTail(Strip(s, " [").value, tail);
    }
  }

  lemma ClauseKeepsTail(s: string, tail: string)
    requires EndsQuoted(s, tail) && NoQuote(tail) && ReadClause(s).Some? && Strip(tail, " || ").None?
    ensures var rest := ReadClause(s).value.1;
            EndsQuoted(rest, tail) || rest == tail || Strip(tail, ")") == Some(rest)
  {
    hide EndsQuoted, ReadTerm, ReadTerms, ReadDate;
    if Strip(s, "(").Some? {
      StripKeepsTail(s, "(", tail);
      TermsKeepTail(Strip(s, "(").value, tail);
    } else if Strip(s, "date:").Some? {
      StripKeepsTail(s, "date:", tail);
      DateKeepsTail(Strip(s, "date:").value, tail);
    } else {
      TermKeepsTail(s, tail);
    }
  }

  // The last quote is followed by the date range, after a term or after a list of terms.
  function RangeTail(lo: int, hi: int, closing: string): string {
    closing + (" && " + PrintClause(Within(lo, hi)))
  }

  lemma {:induction false} NatPrintsNoQuote(n: nat)
    ensures NoQuote(PrintNat(n))
  {
    if n >= 10 { NatPrintsNoQuote(n / 10); }
  }

  lemma IntPrintsNoQuote(n: int)
    ensures NoQuote(PrintInt(n))
  {
    NatPrintsNoQuote(if n < 0 then -n else n);
  }

  lemma RangePrintsNoQuote(lo: int, hi: int)
    ensures NoQuote(PrintClause(Within(lo, hi)))
  {
    hide PrintInt;
    IntPrintsNoQuote(lo);
    IntPrintsNoQuote(hi);
  }

  lemma RangeTailFacts(lo: int, hi: int, closing: string)
    requires closing == "" || closing == ")"
    ensures var tail := RangeTail(lo, hi, closing);
            NoQuote(tail) && tail != "" && Strip(tail, " || ").None?
  {
    hide PrintClause;
    RangePrintsNoQuote(lo, hi);
    var tail := RangeTail(lo, hi, closing);
    if closing == "" {
      assert tail[1] == '&';
      NotStripped(tail, " || ", 1);
    } else {
      assert tail[0] == ')';
      NotStripped(tail, " || ", 0);
    }
  }

  // After the last quote only the range is left to read.
  lemma RangeIsLast(lo: int, hi: int, closing: string, rest: string)
    requires closing == "" || closing == ")"
    requires var tail := RangeTail(lo, hi, closing); rest == tail || Strip(tail, ")") == Some(rest)
    ensures rest != "" && (Strip(rest, " && ").Some? ==> ReadClauses(Strip(rest, " && ").value) == Some([Within(lo, hi)]))
  {
    hide ReadClauses;
    var range := PrintClause(Within(lo, hi));
    assert (" && " + range)[0] != ')';
    if closing == "" {
      assert rest == " && " + range by {
        NotStripped(" && " + range, ")", 0);
        assert RangeTail(lo, hi, "") == " && " + range;
      }
      Stripped(" && ", range);
    } else if rest == RangeTail(lo, hi, ")") {
      NotStripped(rest, " && ", 0);
    } else {
      Stripped(")", " && " + range);
      Stripped(" && ", range);
    }
    LastClauseReads(Within(lo, hi));
  }

  // Whatever quotes a text holds, if a date range is printed after its last quote and it
  // reads at all, then it reads as clauses the last of which is that range.
  lemma {:induction false} RangeSurvives(s: string, lo: int, hi: int, closing: string)
    requires closing == "" || closing == ")"
    requires EndsQuoted(s, RangeTail(lo, hi, closing)) && ReadClauses(s).Some?
    ensures var cs := ReadClauses(s).value; Within(lo, hi) in cs
    decreases |s|
  {
    hide ReadClause, RangeTail;
    var tail := RangeTail(lo, hi, closing);
    RangeTailFacts(lo, hi, closing);
    ClauseKeepsTail(s, tail);
    var rest := ReadClause(s).value.1;
    if EndsQuoted(rest, tail) {
      StripKeepsTail(rest, " && ", tail);
      RangeSurvives(Strip(rest, " && ").value, lo, hi, closing);
    } else {
      RangeIsLast(lo, hi, closing, rest);
    }
  }

  lemma {:induction false} JoinSnoc(sep: string, parts: seq<string>, last: string)
    requires parts != []
    ensures Join(sep, parts + [last]) == Join(sep, parts) + (sep + last)
  {
    var all := parts + [last];
    assert all[1..] == parts[1..] + [last];
    if |parts| > 1 {
      JoinSnoc(sep, parts[1..], last);
    }
  }

  lemma JoinEnds(sep: string, parts: seq<string>) returns (front: string)
    requires parts != []
    ensures Join(sep, parts) == front + parts[|parts| - 1]
  {
    var init := parts[..|parts| - 1];
    assert parts == init + [parts[|parts| - 1]];
    if init == [] {
      front := "";
    } else {
      JoinSnoc(sep, init, parts[|parts| - 1]);
      front := Join(sep, init) + sep;
    }
  }

  lemma {:induction false} LastTermPrinted(ts: seq<Term>)
    requires ts != []
    ensures PrintTerms(ts)[|ts| - 1] == PrintTerm(ts[|ts| - 1])
  {
    if |ts| > 1 { LastTermPrinted(ts[1..]); }
  }

  lemma {:induction false} LastClausePrinted(cs: seq<Clause>)
    requires cs != []
    ensures PrintClauses(cs)[|cs| - 1] == PrintClause(cs[|cs| - 1])
  {
    if |cs| > 1 { LastClausePrinted(cs[1..]); }
  }

  predicate ListsTerms(c: Clause) {
    c.Only? || (c.AnyOf? && c.terms != [])
  }

  lemma TermsPrintQuoteLast(ts: seq<Term>) returns (front: string)
    requires ts != []
    ensures Join(" || ", PrintTerms(ts)) == front + "\""
  {
    var last := ts[|ts| - 1];
    var before := JoinEnds(" || ", PrintTerms(ts));
    LastTermPrinted(ts);
    front := before + (Open(last.field) + last.value);
  }

  // A clause that lists terms prints a quote last, but for a closing parenthesis.
  lemma ClausePrintsQuoteLast(c: Clause) returns (front: string, closing: string)
    requires ListsTerms(c)
    ensures PrintClause(c) == front + ("\"" + closing) && (closing == "" || closing == ")")
  {
    hide PrintTerms, Join, Open;
    if c.Only? {
      front, closing := Open(c.term.field) + c.term.value, "";
      assert "\"" + closing == "\"";
    } else {
      front := TermsPrintQuoteLast(c.terms);
      front, closing := "(" + front, ")";
    }
  }

  lemma EndsQuotedMade(front: string, tail: string)
    ensures EndsQuoted(front + ("\"" + tail), tail)
  {
  }

  lemma RangeAfterTerms(cs: seq<Clause>, lo: int, hi: int) returns (closing: string)
    requires cs != [] && ListsTerms(cs[|cs| - 1])
    ensures closing == "" || closing == ")"
    ensures EndsQuoted(Join(" && ", PrintClauses(cs + [Within(lo, hi)])), RangeTail(lo, hi, closing))
  {
    hide EndsQuoted, PrintClause;
    var range := PrintClause(Within(lo, hi));
    PrintClausesConcat(cs, [Within(lo, hi)]);
    PrintOne(Within(lo, hi));
    JoinSnoc(" && ", PrintClauses(cs), range);
    var before := JoinEnds(" && ", PrintClauses(cs));
    LastClausePrinted(cs);
    var front;
    front, closing := ClausePrintsQuoteLast(cs[|cs| - 1]);
    var tail := RangeTail(lo, hi, closing);
    assert before + (front + ("\"" + closing)) + (" && " + range) == before + front + ("\"" + tail);
    EndsQuotedMade(before + front, tail);
  }

  // ---------- date bounds that leave no date ----------

  predicate SomeDate(f: Filters) {
    f.dateFrom.Some? && f.dateTo.Some? ==> NotAfter(f.dateFrom.value, f.dateTo.value)
  }

  // Then the index admits nothing, whatever else the request holds.
  lemma NoDateAdmitsNothing(f: Filters, doc: Doc)
    requires !SomeDate(f)
    ensures !IndexAdmits(f, doc)
  {
    hide ReadFilter, FilterText, ClausesOf, ToTypesenseDate;
    var lo, hi := ToTypesenseDate(f.dateFrom.value), ToTypesenseDate(f.dateTo.value);
    StampOrder(f.dateFrom.value, f.dateTo.value);
    if ReadFilter(FilterText(f)).Some? {
      RangeIsRead(f, lo, hi);
      assert !ClauseHolds(Within(lo, hi), doc);
    }
  }

  lemma RangeAlone(f: Filters, lo: int, hi: int)
    requires ClausesOf(f) == [Within(lo, hi)]
    ensures ReadFilter(FilterText(f)) == Some([Within(lo, hi)])
  {
    hide ReadFilter, FilterText, ClausesOf, QuoteFreeRequest;
    NothingQuoted();
    assert ClausesQuoteFree(ClausesOf(f));
    QuoteFreeClausesRequest(f);
    FilterTextReadsBack(f);
  }

  // The range of a request with both bounds is a clause of what the index reads, if it reads
  // anything.
  lemma RangeIsRead(f: Filters, lo: int, hi: int)
    requires f.dateFrom.Some? && f.dateTo.Some?
    requires lo == ToTypesenseDate(f.dateFrom.value) && hi == ToTypesenseDate(f.dateTo.value)
    requires ReadFilter(FilterText(f)).Some?
    ensures Within(lo, hi) in ReadFilter(FilterText(f)).value
  {
    hide ReadClauses, EndsQuoted, Join, QuoteFreeRequest;
    var cs := CountryClause(f) + AnyOfClause(Store, f.storeIds) + AnyOfClause(Sku, f.skus);
    assert ClausesOf(f) == cs + [Within(lo, hi)];
    if cs == [] {
      RangeAlone(f, lo, hi);
    } else {
      var closing := RangeAfterTerms(cs, lo, hi);
      RangeSurvives(FilterText(f).value, lo, hi, closing);
    }
  }

  // ---------- what a request wants, field by field ----------

  // The values asked for in a field, with or without the empty ones.
  function Wanted(f: Filters, field: Field, empties: bool): seq<string> {
    var values :=
      match field
      case Country => if CountryText(f) == "" then [] else [CountryText(f)]
      case Store => OrEmpty(f.storeIds)
      case Sku => OrEmpty(f.skus);
    if empties then values else NonEmpty(values)
  }

  function Component(v: Values, field: Field): string {
    match field
    case Country => v.country
    case Store => v.store
    case Sku => v.sku
  }

  predicate Accepts(values: seq<string>, x: string) {
    values == [] || x in values
  }

  ghost predicate Fits(f: Filters, v: Values, empties: bool) {
    && (forall field: Field :: Accepts(Wanted(f, field, empties), Component(v, field)))
    && (f.dateFrom.Some? ==> NotAfter(f.dateFrom.value, v.date))
    && (f.dateTo.Some? ==> NotAfter(v.date, f.dateTo.value))
  }

  lemma OneKept(x: string)
    ensures NonEmpty([]) == []
    ensures x != "" ==> NonEmpty([x]) == [x]
  {
    assert [x][1..] == [];
  }

  lemma FitsMeans(f: Filters, v: Values)
    ensures Fits(f, v, true) <==> SqlAdmits(f, v)
    ensures Fits(f, v, false) <==> Requested(f, v)
  {
    hide NotAfter, NonEmpty;
    ListedMeans(f.storeIds, v.store);
    ListedMeans(f.skus, v.sku);
    OneKept(CountryText(f));
    assert forall e: bool :: Fits(f, v, e) ==>
      && Accepts(Wanted(f, Country, e), Component(v, Country))
      && Accepts(Wanted(f, Store, e), Component(v, Store))
      && Accepts(Wanted(f, Sku, e), Component(v, Sku));
  }

  function FirstOr(values: seq<string>): string {
    if values == [] then "s" else values[0]
  }

  // A row that fits a request whose bounds leave some date.
  function Sample(f: Filters, empties: bool): Values {
    Values(FirstOr(Wanted(f, Country, empties)), FirstOr(Wanted(f, Store, empties)), FirstOr(Wanted(f, Sku, empties)),
           "p", 0, "USD", true,
           if f.dateFrom.Some? then f.dateFrom.value
           else if f.dateTo.Some? then f.dateTo.value
           else Date(1970, 1, 1))
  }

  // The sample with another value in one field fits exactly when that value is wanted.
  lemma SampleFits(f: Filters, empties: bool, field: Field, x: string)
    requires SomeDate(f)
    ensures Fits(f, With(Sample(f, empties), field, x), empties) <==> Accepts(Wanted(f, field, empties), x)
  {
    var v := With(Sample(f, empties), field, x);
    assert Component(v, field) == x;
    forall other: Field | other != field
      ensures Accepts(Wanted(f, other, empties), Component(v, other))
    {
    }
  }

  // A string with a quote that is in none of the values.
  function Unlisted(values: seq<string>): (x: string)
    ensures x != "" && x[0] == '"'
    ensures forall v :: v in values ==> |v| < |x|
  {
    if values == [] then "\""
    else
      assert forall v :: v in values ==> v == values[0] || v in values[1..];
      Unlisted(values[1..]) + values[0]
  }

  // ---------- when the filters agree ----------

  lemma Offender(f: Filters) returns (field: Field, x: string)
    requires !QuoteFreeRequest(f)
    ensures !NoQuote(x) && forall empties: bool :: x in Wanted(f, field, empties)
  {
    if !NoQuote(CountryText(f)) {
      field, x := Country, CountryText(f);
      assert NonEmpty([x]) == [x];
    } else if v :| v in OrEmpty(f.storeIds) && !NoQuote(v) {
      field, x := Store, v;
    } else {
      field := Sku;
      x :| x in OrEmpty(f.skus) && !NoQuote(x);
    }
  }

  // A row with a non-empty store and sku, which is all the edit schema lets through.
  predicate Identified(v: Values) {
    v.store != "" && v.sku != ""
  }

  // A list given but made of empty strings only.
  predicate AllEmpty(values: Option<seq<string>>) {
    values.Some? && values.value != [] && forall v | v in values.value :: v == ""
  }

  lemma QuotedIdentified(f: Filters, field: Field, x: string)
    requires !NoQuote(x)
    ensures Identified(With(Sample(f, false), field, x))
  {
    FirstIsNonEmpty(OrEmpty(f.storeIds));
    FirstIsNonEmpty(OrEmpty(f.skus));
  }

  lemma WantedAccepted(f: Filters, field: Field, empties: bool, x: string, y: string)
    requires x in Wanted(f, field, empties) && y !in Wanted(f, field, empties)
    ensures Accepts(Wanted(f, field, empties), x) && !Accepts(Wanted(f, field, empties), y)
  {
  }

  // A request with a quoted value: the index does not see what the request wants.
  lemma QuotedRequestsDiffer(f: Filters, empties: bool)
    requires SomeDate(f) && !QuoteFreeRequest(f)
    ensures exists id: Id, v: Values ::
              IndexAdmits(f, DocOf(id, v)) != Fits(f, v, empties) && (empties || Identified(v))
  {
    hide IndexAdmits, Fits, SomeDate, QuoteFreeRequest, Sample, Wanted, With, Accepts, Identified, DocOf;
    var field, x := Offender(f);
    var y, sample := Unlisted(Wanted(f, field, empties)), Sample(f, empties);
    SampleFits(f, empties, field, x);
    SampleFits(f, empties, field, y);
    WantedAccepted(f, field, empties, x, y);
    QuotedIdentified(f, field, x);
    QuotedIdentified(f, field, y);
    QuotedLookAlike(f, 0, sample, field, x, y);
    assert DocOf(0, With(sample, field, x)) == DocOf(0, With(sample, field, x));
    assert DocOf(0, With(sample, field, y)) == DocOf(0, With(sample, field, y));
  }

  // The index filter asks what the request wants exactly for requests without quoted
  // values, and for those that want no date at all.
  lemma IndexAdmitsExactlyWhen(f: Filters)
    ensures (forall id: Id, v: Values :: IndexAdmits(f, DocOf(id, v)) <==> Requested(f, v))
            <==> !SomeDate(f) || QuoteFreeRequest(f)
  {
    hide IndexAdmits, Fits, QuoteFreeRequest;
    if !SomeDate(f) {
      forall id: Id, v: Values
        ensures !IndexAdmits(f, DocOf(id, v)) && !Requested(f, v)
      {
        NoDateAdmitsNothing(f, DocOf(id, v));
      }
    } else if QuoteFreeRequest(f) {
      forall id: Id, v: Values
        ensures IndexAdmits(f, DocOf(id, v)) <==> Requested(f, v)
      {
        IndexAdmitsMeans(f, id, v);
      }
    } else {
      QuotedRequestsDiffer(f, false);
      var id: Id, v: Values :| IndexAdmits(f, DocOf(id, v)) != Fits(f, v, false);
      FitsMeans(f, v);
    }
  }

  // Every listed value is non-empty.
  predicate NoEmptyValue(values: Option<seq<string>>) {
    values.Some? ==> "" !in values.value
  }

  lemma FiltersAgree(f: Filters, id: Id, v: Values)
    requires QuoteFreeRequest(f) && NoEmptyValue(f.storeIds) && NoEmptyValue(f.skus)
    ensures IndexAdmits(f, DocOf(id, v)) <==> SqlAdmits(f, v)
  {
    IndexAdmitsMeans(f, id, v);
    NonEmptyKeepsAll(OrEmpty(f.storeIds));
    NonEmptyKeepsAll(OrEmpty(f.skus));
  }

  lemma {:induction false} NonEmptyKeepsAll(values: seq<string>)
    requires "" !in values
    ensures NonEmpty(values) == values
  {
    if values != [] {
      NonEmptyKeepsAll(values[1..]);
    }
  }

  // A listed empty value: SQL looks for it, the index filter leaves it out, and drops a list
  // of nothing else.
  lemma EmptyValuesDiffer(f: Filters, field: Field)
    requires SomeDate(f) && "" in Wanted(f, field, true)
    ensures exists v: Values :: SqlAdmits(f, v) != Requested(f, v)
  {
    hide Fits, SomeDate;
    var kept := Wanted(f, field, false);
    var v := if kept == [] then With(Sample(f, false), field, "s") else With(Sample(f, true), field, "");
    if kept == [] {
      SampleFits(f, false, field, "s");
      assert "s" !in Wanted(f, field, true);
      FitsOnly(f, v, true, field);
      assert Component(v, field) == "s";
    } else {
      SampleFits(f, true, field, "");
      FitsOnly(f, v, false, field);
      assert Component(v, field) == "";
    }
    FitsMeans(f, v);
  }

  lemma FitsOnly(f: Filters, v: Values, empties: bool, field: Field)
    ensures Fits(f, v, empties) ==> Accepts(Wanted(f, field, empties), Component(v, field))
  {
  }

  // For all requests: the index and SQL admit the same rows exactly when no value holds a
  // double quote and no listed value is empty, or the date bounds leave no date.
  lemma FiltersAgreeExactlyWhen(f: Filters)
    ensures (forall id: Id, v: Values :: IndexAdmits(f, DocOf(id, v)) <==> SqlAdmits(f, v))
            <==> !SomeDate(f) || (QuoteFreeRequest(f) && NoEmptyValue(f.storeIds) && NoEmptyValue(f.skus))
  {
    hide IndexAdmits, Fits, QuoteFreeRequest;
    if !SomeDate(f) {
      forall id: Id, v: Values
        ensures !IndexAdmits(f, DocOf(id, v)) && !SqlAdmits(f, v)
      {
        NoDateAdmitsNothing(f, DocOf(id, v));
      }
    } else if !QuoteFreeRequest(f) {
      QuotedRequestsDiffer(f, true);
      var id: Id, v: Values :| IndexAdmits(f, DocOf(id, v)) != Fits(f, v, true);
      FitsMeans(f, v);
    } else if NoEmptyValue(f.storeIds) && NoEmptyValue(f.skus) {
      forall id: Id, v: Values
        ensures IndexAdmits(f, DocOf(id, v)) <==> SqlAdmits(f, v)
      {
        FiltersAgree(f, id, v);
      }
    } else {
      EmptyValuesDiffer(f, if NoEmptyValue(f.storeIds) then Sku else Store);
      var v: Values :| SqlAdmits(f, v) != Requested(f, v);
      IndexAdmitsMeans(f, 0, v);
    }
  }

  ghost predicate AgreeOnIdentified(f: Filters) {
    forall id: Id, v: Values :: Identified(v) ==> (IndexAdmits(f, DocOf(id, v)) <==> SqlAdmits(f, v))
  }

  // On rows with store and sku: when no list is all empty, the filters agree for exactly the
  // requests without quoted values or without a date; a list of empty values makes SQL admit
  // none of these rows, while the index drops it and, without quoted values, admits some.
  lemma IdentifiedRowsAgreeExactlyWhen(f: Filters)
    ensures !AllEmpty(f.storeIds) && !AllEmpty(f.skus) ==>
              (AgreeOnIdentified(f) <==> !SomeDate(f) || QuoteFreeRequest(f))
    ensures AllEmpty(f.storeIds) || AllEmpty(f.skus) ==>
              (AgreeOnIdentified(f) <==> forall id: Id, v: Values :: Identified(v) ==> !IndexAdmits(f, DocOf(id, v)))
    ensures QuoteFreeRequest(f) ==>
              (AgreeOnIdentified(f) <==> !(SomeDate(f) && (AllEmpty(f.storeIds) || AllEmpty(f.skus))))
  {
    hide IndexAdmits, QuoteFreeRequest;
    forall v: Values | Identified(v)
      ensures AllEmpty(f.storeIds) || AllEmpty(f.skus) ==> !SqlAdmits(f, v)
      ensures !AllEmpty(f.storeIds) && !AllEmpty(f.skus) ==> (SqlAdmits(f, v) <==> Requested(f, v))
    {
    }
    if !SomeDate(f) {
      forall id: Id, v: Values
        ensures !IndexAdmits(f, DocOf(id, v)) && !SqlAdmits(f, v)
      {
        NoDateAdmitsNothing(f, DocOf(id, v));
      }
    } else if QuoteFreeRequest(f) {
      IdentifiedSample(f);
      forall id: Id, v: Values
        ensures IndexAdmits(f, DocOf(id, v)) <==> Requested(f, v)
      {
        IndexAdmitsMeans(f, id, v);
      }
      assert Requested(f, Sample(f, false)) ==> IndexAdmits(f, DocOf(0, Sample(f, false)));
    } else {
      QuotedRequestsDiffer(f, false);
      var id: Id, v: Values :| IndexAdmits(f, DocOf(id, v)) != Fits(f, v, false) && Identified(v);
      FitsMeans(f, v);
    }
  }

  lemma IdentifiedSample(f: Filters)
    requires SomeDate(f)
    ensures Identified(Sample(f, false)) && Requested(f, Sample(f, false))
  {
    hide SomeDate;
    var v := Sample(f, false);
    FirstIsNonEmpty(OrEmpty(f.storeIds));
    FirstIsNonEmpty(OrEmpty(f.skus));
    SampleFits(f, false, Store, v.store);
    FitsMeans(f, v);
  }

  lemma FirstIsNonEmpty(values: seq<string>)
    ensures FirstOr(NonEmpty(values)) != "" && Accepts(NonEmpty(values), FirstOr(NonEmpty(values)))
  {
    if NonEmpty(values) != [] {
      assert NonEmpty(values)[0] in NonEmpty(values);
    }
  }

  // Why quoted values are left out of what a request wants: this store's name closes its
  // quotes and goes on as another term, and the index admits rows of a store not asked for.
  lemma QuotedStoreAdmitsOthers(id: Id, v: Values)
    requires v.store == "a"
    ensures var f := Filters(None, Some(["a\" || store_id:=\"b"]), None, None, None);
            IndexAdmits(f, DocOf(id, v)) && !Requested(f, v)
  {
    hide ReadClauses;
    var name := "a\" || store_id:=\"b";
    var f, terms := Filters(None, Some([name]), None, None, None), [Is(Store, "a"), Is(Store, "b")];
    assert [name][1..] == [] && NonEmpty([name]) == [name];
    assert TermsOf(Store, [name]) == [Is(Store, name)];
    assert CountryClause(f) == [] && AnyOfClause(Sku, f.skus) == [] && DateClause(f) == [];
    assert AnyOfClause(Store, f.storeIds) == [AnyOf([Is(Store, name)])];
    assert ClausesOf(f) == [AnyOf([Is(Store, name)])];
    PrintOne(AnyOf([Is(Store, name)]));
    SamePrint(name);
    LastClauseReads(AnyOf(terms));
    assert Is(Store, "a") in terms && TermHolds(Is(Store, "a"), DocOf(id, v));
  }

  lemma SamePrint(name: string)
    requires name == "a\" || store_id:=\"b"
    ensures PrintClause(AnyOf([Is(Store, name)])) == PrintClause(AnyOf([Is(Store, "a"), Is(Store, "b")]))
  {
    var a, b := Is(Store, "a"), Is(Store, "b");
    assert [a, b][1..] == [b];
    PrintTermsStep([a, b]);
    assert Join(" || ", PrintTerms([b])) == PrintTerm(b);
    assert PrintTerm(Is(Store, name)) == PrintTerm(a) + " || " + PrintTerm(b);
  }
}
