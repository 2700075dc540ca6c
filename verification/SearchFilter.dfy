// The two filter builders: the index's filter text (backend/app/services/typesense_service.py)
// and the SQL conditions (backend/app/repositories/pricing_repository.py).
module SearchFilter {
  import opened Prelude
  import opened Calendar
  import opened Records

  datatype Filters = Filters(
    country: Option<string>,
    storeIds: Option<seq<string>>,
    skus: Option<seq<string>>,
    dateFrom: Option<Date>,
    dateTo: Option<Date>)

  // An absent country filters as an empty one.
  function CountryText(f: Filters): string {
    if f.country.Some? then f.country.value else ""
  }

  // ---------- what the filter language means ----------

  datatype Field = Country | Store | Sku

  datatype Term = Is(field: Field, value: string)

  datatype Clause =
    | Only(term: Term)
    | AnyOf(terms: seq<Term>)
    | AtMost(hi: int)
    | AtLeast(lo: int)
    | Within(from: int, to: int)

  // A term up to and including its opening quote.
  function Open(field: Field): string {
    match field
    case Country => "country_code:=\""
    case Store => "store_id:=\""
    case Sku => "sku:=\""
  }

  function FieldOf(field: Field, doc: Doc): string {
    match field
    case Country => doc.country
    case Store => doc.store
    case Sku => doc.sku
  }

  // `:=` is exact equality.
  predicate TermHolds(t: Term, doc: Doc) {
    FieldOf(t.field, doc) == t.value
  }

  predicate ClauseHolds(c: Clause, doc: Doc) {
    match c
    case Only(t) => TermHolds(t, doc)
    case AnyOf(ts) => exists t | t in ts :: TermHolds(t, doc)
    case AtMost(hi) => doc.date <= hi
    case AtLeast(lo) => lo <= doc.date
    case Within(lo, hi) => lo <= doc.date <= hi
  }

  // `&&` between clauses.
  predicate AllHold(cs: seq<Clause>, doc: Doc) {
    forall c | c in cs :: ClauseHolds(c, doc)
  }

  // ---------- printing ----------

  function Join(sep: string, parts: seq<string>): string {
    if parts == [] then ""
    else if |parts| == 1 then parts[0]
    else parts[0] + sep + Join(sep, parts[1..])
  }

  function PrintNat(n: nat): string {
    if n < 10 then [DigitChar(n)] else PrintNat(n / 10) + [DigitChar(n % 10)]
  }

  function PrintInt(n: int): string {
    if n < 0 then "-" + PrintNat(-n) else PrintNat(n)
  }

  function PrintTerm(t: Term): string {
    Open(t.field) + t.value + "\""
  }

  function PrintTerms(ts: seq<Term>): (r: seq<string>)
    ensures |r| == |ts|
  {
    if ts == [] then [] else [PrintTerm(ts[0])] + PrintTerms(ts[1..])
  }

  function PrintClause(c: Clause): string {
    match c
    case Only(t) => PrintTerm(t)
    case AnyOf(ts) => "(" + Join(" || ", PrintTerms(ts)) + ")"
    case AtMost(hi) => "date:<= " + PrintInt(hi)
    case AtLeast(lo) => "date:>= " + PrintInt(lo)
    case Within(lo, hi) => "date: [" + PrintInt(lo) + ".." + PrintInt(hi) + "]"
  }

  function PrintClauses(cs: seq<Clause>): (r: seq<string>)
    ensures |r| == |cs|
  {
    if cs == [] then [] else [PrintClause(cs[0])] + PrintClauses(cs[1..])
  }

  // ---------- what the builder builds ----------

  // The values that are not empty, in order.
  function NonEmpty(values: seq<string>): (r: seq<string>)
    ensures forall v :: v in r <==> v in values && v != ""
  {
    if values == [] then []
    else if values[0] != "" then [values[0]] + NonEmpty(values[1..])
    else NonEmpty(values[1..])
  }

  function TermsOf(field: Field, values: seq<string>): (r: seq<Term>)
    ensures |r| == |values|
    ensures forall v :: v in values <==> Is(field, v) in r
    ensures forall t :: t in r ==> t.field == field && t.value in values
  {
    if values == [] then [] else [Is(field, values[0])] + TermsOf(field, values[1..])
  }

  function AnyOfClause(field: Field, values: Option<seq<string>>): seq<Clause> {
    var terms := TermsOf(field, NonEmpty(OrEmpty(values)));
    if terms == [] then [] else [AnyOf(terms)]
  }

  function CountryClause(f: Filters): seq<Clause> {
    if CountryText(f) == "" then [] else [Only(Is(Country, CountryText(f)))]
  }

  function DateClause(f: Filters): seq<Clause> {
    match (f.dateFrom, f.dateTo)
    case (None, None) => []
    case (None, Some(to)) => [AtMost(ToTypesenseDate(to))]
    case (Some(from), None) => [AtLeast(ToTypesenseDate(from))]
    case (Some(from), Some(to)) => [Within(ToTypesenseDate(from), ToTypesenseDate(to))]
  }

  function ClausesOf(f: Filters): seq<Clause> {
    CountryClause(f) + AnyOfClause(Store, f.storeIds) + AnyOfClause(Sku, f.skus) + DateClause(f)
  }

  function FilterText(f: Filters): Option<string> {
    if ClausesOf(f) == [] then None else Some(Join(" && ", PrintClauses(ClausesOf(f))))
  }

  // One printed term for each non-empty value.
  function ListedTerms(field: Field, values: seq<string>): seq<string> {
    PrintTerms(TermsOf(field, NonEmpty(values)))
  }

  // A clause list that prints as a non-empty list of terms in parentheses.
  lemma AnyOfPrints(field: Field, values: Option<seq<string>>)
    ensures PrintClauses(AnyOfClause(field, values)) ==
            var parts := ListedTerms(field, OrEmpty(values));
            if parts == [] then [] else ["(" + Join(" || ", parts) + ")"]
  {
    var terms := TermsOf(field, NonEmpty(OrEmpty(values)));
    if terms != [] {
      assert AnyOfClause(field, values) == [AnyOf(terms)];
      assert PrintClauses([AnyOf(terms)]) == [PrintClause(AnyOf(terms))];
    }
  }

  lemma PrintOne(c: Clause)
    ensures PrintClauses([c]) == [PrintClause(c)]
  {
  }

  method DatePart(f: Filters) returns (parts: seq<string>)
    ensures parts == PrintClauses(DateClause(f))
  {
    parts := [];
    if f.dateFrom.Some? || f.dateTo.Some? {
      if f.dateFrom.None? {
        var hi := ToTypesenseDate(f.dateTo.value);
        PrintOne(AtMost(hi));
        parts := parts + ["date:<= " + PrintInt(hi)];
      } else if f.dateTo.None? {
        var lo := ToTypesenseDate(f.dateFrom.value);
        PrintOne(AtLeast(lo));
        parts := parts + ["date:>= " + PrintInt(lo)];
      } else {
        var lo, hi := ToTypesenseDate(f.dateFrom.value), ToTypesenseDate(f.dateTo.value);
        PrintOne(Within(lo, hi));
        parts := parts + ["date: [" + PrintInt(lo) + ".." + PrintInt(hi) + "]"];
      }
    }
  }

  method BuildFilterBy(f: Filters) returns (text: Option<string>)
    ensures text == FilterText(f)
  {
    var filterParts: seq<string> := [];
    if CountryText(f) != "" {
      PrintOne(Only(Is(Country, CountryText(f))));
      filterParts := filterParts + [Open(Country) + CountryText(f) + "\""];
    }
    ghost var done := CountryClause(f);
    assert filterParts == PrintClauses(done);

    var stores := ListedTerms(Store, OrEmpty(f.storeIds));
    if stores != [] {
      filterParts := filterParts + ["(" + Join(" || ", stores) + ")"];
    }
    AnyOfPrints(Store, f.storeIds);
    PrintClausesConcat(done, AnyOfClause(Store, f.storeIds));
    done := done + AnyOfClause(Store, f.storeIds);
    assert filterParts == PrintClauses(done);

    var skus := ListedTerms(Sku, OrEmpty(f.skus));
    if skus != [] {
      filterParts := filterParts + ["(" + Join(" || ", skus) + ")"];
    }
    AnyOfPrints(Sku, f.skus);
    PrintClausesConcat(done, AnyOfClause(Sku, f.skus));
    done := done + AnyOfClause(Sku, f.skus);
    assert filterParts == PrintClauses(done);

    var dates := DatePart(f);
    filterParts := filterParts + dates;
    PrintClausesConcat(done, DateClause(f));
    assert filterParts == PrintClauses(ClausesOf(f));
    text := if filterParts != [] then Some(Join(" && ", filterParts)) else None;
  }

  lemma {:induction false} PrintClausesConcat(a: seq<Clause>, b: seq<Clause>)
    ensures PrintClauses(a + b) == PrintClauses(a) + PrintClauses(b)
  {
    if a == [] {
      assert a + b == b;
    } else {
      assert (a + b)[0] == a[0] && (a + b)[1..] == a[1..] + b;
      PrintClausesConcat(a[1..], b);
    }
  }

  // ---------- reading the text back ----------

  // What follows the prefix, if the text starts with it.
  function Strip(s: string, prefix: string): (r: Option<string>)
    ensures r.Some? ==> |r.value| + |prefix| == |s|
  {
    if |prefix| <= |s| && s[..|prefix|] == prefix then Some(s[|prefix|..]) else None
  }

  // The text up to the next double quote, and what follows that quote.
  function ReadQuoted(s: string): (r: Option<(string, string)>)
    ensures r.Some? ==> |r.value.1| < |s|
  {
    if s == "" then None
    else if s[0] == '"' then Some(("", s[1..]))
    else
      var r := ReadQuoted(s[1..]);
      if r.None? then None else Some(([s[0]] + r.value.0, r.value.1))
  }

  function ReadField(s: string): (r: Option<(Field, string)>)
    ensures r.Some? ==> |r.value.1| < |s|
  {
    match Strip(s, "country_code:=\"")
    case Some(rest) => Some((Country, rest))
    case None =>
      match Strip(s, "store_id:=\"")
      case Some(rest) => Some((Store, rest))
      case None =>
        match Strip(s, "sku:=\"")
        case Some(rest) => Some((Sku, rest))
        case None => None
  }

  function ReadTerm(s: string): (r: Option<(Term, string)>)
    ensures r.Some? ==> |r.value.1| < |s|
  {
    match ReadField(s)
    case None => None
    case Some((field, quoted)) =>
      match ReadQuoted(quoted)
      case None => None
      case Some((value, rest)) => Some((Is(field, value), rest))
  }

  // Terms between `||`, up to the closing parenthesis.
  function ReadTerms(s: string): (r: Option<(seq<Term>, string)>)
    decreases |s|
  {
    match ReadTerm(s)
    case None => None
    case Some((term, rest)) =>
      match Strip(rest, ")")
      case Some(closed) => Some(([term], closed))
      case None =>
        match Strip(rest, " || ")
        case None => None
        case Some(next) =>
          match ReadTerms(next)
          case None => None
          case Some((terms, closed)) => Some(([term] + terms, closed))
  }

  predicate IsDigit(c: char) {
    '0' <= c <= '9'
  }

  function DigitValue(c: char): int
    requires IsDigit(c)
  {
    c as int - '0' as int
  }

  // The digits at the front of s, appended to the number read so far.
  function ReadNat(s: string, sofar: int): (int, string) {
    if s != "" && IsDigit(s[0]) then ReadNat(s[1..], 10 * sofar + DigitValue(s[0])) else (sofar, s)
  }

  function ReadInt(s: string): (int, string) {
    match Strip(s, "-")
    case Some(digits) => (-ReadNat(digits, 0).0, ReadNat(digits, 0).1)
    case None => ReadNat(s, 0)
  }

  function ReadRange(s: string): Option<(Clause, string)> {
    var (lo, rest) := ReadInt(s);
    match Strip(rest, "..")
    case None => None
    case Some(next) =>
      var (hi, last) := ReadInt(next);
      match Strip(last, "]")
      case None => None
      case Some(closed) => Some((Within(lo, hi), closed))
  }

  // What follows `date:`.
  function ReadDate(s: string): Option<(Clause, string)> {
    match Strip(s, "<= ")
    case Some(bound) => Some((AtMost(ReadInt(bound).0), ReadInt(bound).1))
    case None =>
      match Strip(s, ">= ")
      case Some(bound) => Some((AtLeast(ReadInt(bound).0), ReadInt(bound).1))
      case None =>
        match Strip(s, " [")
        case Some(range) => ReadRange(range)
        case None => None
  }

  function ReadClause(s: string): Option<(Clause, string)> {
    match Strip(s, "(")
    case Some(list) =>
      (match ReadTerms(list)
       case None => None
       case Some((terms, rest)) => Some((AnyOf(terms), rest)))
    case None =>
      match Strip(s, "date:")
      case Some(bounds) => ReadDate(bounds)
      case None =>
        match ReadTerm(s)
        case None => None
        case Some((term, rest)) => Some((Only(term), rest))
  }

  // Clauses between `&&`.
  function ReadClauses(s: string): Option<seq<Clause>>
    decreases |s|
  {
    match ReadClause(s)
    case None => None
    case Some((clause, rest)) =>
      if rest == "" then Some([clause])
      else
        match Strip(rest, " && ")
        case None => None
        case Some(next) =>
          if |next| >= |s| then None
          else
            match ReadClauses(next)
            case None => None
            case Some(more) => Some([clause] + more)
  }

  // Absent text filters nothing; unreadable text is an error.
  function ReadFilter(text: Option<string>): Option<seq<Clause>> {
    if text.None? then Some([]) else ReadClauses(text.value)
  }

  // ---------- reading undoes printing ----------

  lemma Stripped(prefix: string, rest: string)
    ensures Strip(prefix + rest, prefix) == Some(rest)
  {
  }

  lemma NotStripped(s: string, prefix: string, i: nat)
    requires i < |s| && i < |prefix| && s[i] != prefix[i]
    ensures Strip(s, prefix) == None
  {
    if |prefix| <= |s| {
      assert s[..|prefix|][i] == s[i];
    }
  }

  lemma Assoc(a: string, b: string, c: string)
    ensures (a + b) + c == a + (b + c)
  {
  }

  predicate NoQuote(s: string) {
    forall i | 0 <= i < |s| :: s[i] != '"'
  }

  lemma {:induction false} QuotedReads(v: string, rest: string)
    requires NoQuote(v)
    ensures ReadQuoted(v + ("\"" + rest)) == Some((v, rest))
  {
    var s := v + ("\"" + rest);
    if v == "" {
      assert s[0] == '"' && s[1..] == rest;
    } else {
      assert s[0] == v[0] && s[1..] == v[1..] + ("\"" + rest);
      QuotedReads(v[1..], rest);
      assert v == [v[0]] + v[1..];
    }
  }

  lemma FieldReads(field: Field, rest: string)
    ensures ReadField(Open(field) + rest) == Some((field, rest))
  {
    var s := Open(field) + rest;
    Stripped(Open(field), rest);
    match field {
      case Country =>
      case Store =>
        NotStripped(s, Open(Country), 0);
      case Sku =>
        NotStripped(s, Open(Country), 0);
        NotStripped(s, Open(Store), 1);
    }
  }

  lemma TermReads(t: Term, rest: string)
    requires NoQuote(t.value)
    ensures ReadTerm(PrintTerm(t) + rest) == Some((t, rest))
  {
    var tail := t.value + ("\"" + rest);
    assert PrintTerm(t) + rest == Open(t.field) + tail;
    FieldReads(t.field, tail);
    QuotedReads(t.value, rest);
  }

  lemma PrintTermsStep(ts: seq<Term>)
    requires |ts| > 1
    ensures Join(" || ", PrintTerms(ts)) == PrintTerm(ts[0]) + " || " + Join(" || ", PrintTerms(ts[1..]))
  {
    assert PrintTerms(ts)[1..] == PrintTerms(ts[1..]);
  }

  lemma TermsReadStep(t: Term, more: string, ts: seq<Term>, rest: string)
    requires NoQuote(t.value) && ReadTerms(more) == Some((ts, rest))
    ensures ReadTerms(PrintTerm(t) + (" || " + more)) == Some(([t] + ts, rest))
  {
    TermReads(t, " || " + more);
    NotStripped(" || " + more, ")", 0);
    Stripped(" || ", more);
  }

  lemma LastTermReads(t: Term, rest: string)
    requires NoQuote(t.value)
    ensures ReadTerms(PrintTerm(t) + (")" + rest)) == Some(([t], rest))
  {
    TermReads(t, ")" + rest);
    Stripped(")", rest);
  }

  predicate TermsQuoteFree(ts: seq<Term>) {
    forall i | 0 <= i < |ts| :: NoQuote(ts[i].value)
  }

  lemma {:induction false} TermsRead(ts: seq<Term>, rest: string)
    requires ts != [] && TermsQuoteFree(ts)
    ensures ReadTerms(Join(" || ", PrintTerms(ts)) + (")" + rest)) == Some((ts, rest))
  {
    var first, others, close := ts[0], ts[1..], ")" + rest;
    if others == [] {
      assert ts == [first];
      assert Join(" || ", PrintTerms(ts)) == PrintTerm(first);
      LastTermReads(first, rest);
    } else {
      var more := Join(" || ", PrintTerms(others));
      TermsRead(others, rest);
      TermsReadStep(first, more + close, others, rest);
      assert [first] + others == ts;
      PrintTermsStep(ts);
      Reassociate(PrintTerm(first), " || ", more, close);
    }
  }

  lemma Reassociate(a: string, b: string, c: string, d: string)
    ensures a + b + c + d == a + (b + (c + d))
  {
  }

  predicate NoDigitFirst(s: string) {
    s == "" || !IsDigit(s[0])
  }

  lemma DigitReads(n: nat, rest: string, sofar: int)
    requires n < 10
    ensures ReadNat([DigitChar(n)] + rest, sofar) == ReadNat(rest, 10 * sofar + n)
  {
    var s := [DigitChar(n)] + rest;
    assert s[1..] == rest;
    assert DigitValue(DigitChar(n)) == n;
  }

  // Reading a printed number leaves the reader where the number ends.
  lemma {:induction false} NatReads(n: nat, rest: string)
    ensures ReadNat(PrintNat(n) + rest, 0) == ReadNat(rest, n)
    decreases n
  {
    if n < 10 {
      DigitReads(n, rest, 0);
    } else {
      var digit := [DigitChar(n % 10)];
      Assoc(PrintNat(n / 10), digit, rest);
      NatReads(n / 10, digit + rest);
      DigitReads(n % 10, rest, n / 10);
    }
  }

  lemma {:induction false} PrintNatStartsWithDigit(n: nat)
    ensures PrintNat(n) != "" && IsDigit(PrintNat(n)[0])
    decreases n
  {
    if n >= 10 { PrintNatStartsWithDigit(n / 10); }
  }

  lemma IntReads(n: int, rest: string)
    requires NoDigitFirst(rest)
    ensures ReadInt(PrintInt(n) + rest) == (n, rest)
  {
    if n < 0 {
      NatReads(-n, rest);
      Assoc("-", PrintNat(-n), rest);
      Stripped("-", PrintNat(-n) + rest);
    } else {
      NatReads(n, rest);
      PrintNatStartsWithDigit(n);
      NotStripped(PrintNat(n) + rest, "-", 0);
    }
  }

  lemma RangeReads(lo: int, hi: int, rest: string)
    ensures ReadRange(PrintInt(lo) + (".." + (PrintInt(hi) + ("]" + rest)))) == Some((Within(lo, hi), rest))
  {
    var last := "]" + rest;
    var mid := ".." + (PrintInt(hi) + last);
    IntReads(lo, mid);
    Stripped("..", PrintInt(hi) + last);
    IntReads(hi, last);
    Stripped("]", rest);
  }

  lemma AtMostReads(hi: int, rest: string)
    requires NoDigitFirst(rest)
    ensures ReadDate("<= " + (PrintInt(hi) + rest)) == Some((AtMost(hi), rest))
  {
    Stripped("<= ", PrintInt(hi) + rest);
    IntReads(hi, rest);
  }

  lemma AtLeastReads(lo: int, rest: string)
    requires NoDigitFirst(rest)
    ensures ReadDate(">= " + (PrintInt(lo) + rest)) == Some((AtLeast(lo), rest))
  {
    NotStripped(">= " + (PrintInt(lo) + rest), "<= ", 0);
    Stripped(">= ", PrintInt(lo) + rest);
    IntReads(lo, rest);
  }

  lemma WithinReads(lo: int, hi: int, rest: string)
    ensures ReadDate(" [" + (PrintInt(lo) + (".." + (PrintInt(hi) + ("]" + rest))))) == Some((Within(lo, hi), rest))
  {
    var range := PrintInt(lo) + (".." + (PrintInt(hi) + ("]" + rest)));
    NotStripped(" [" + range, "<= ", 0);
    NotStripped(" [" + range, ">= ", 0);
    Stripped(" [", range);
    RangeReads(lo, hi, rest);
  }

  predicate QuoteFree(c: Clause) {
    match c
    case Only(t) => NoQuote(t.value)
    case AnyOf(ts) => ts != [] && TermsQuoteFree(ts)
    case _ => true
  }

  lemma DateClauseReads(c: Clause, bounds: string, rest: string)
    requires PrintClause(c) + rest == "date:" + bounds
    requires ReadDate(bounds) == Some((c, rest))
    ensures ReadClause(PrintClause(c) + rest) == Some((c, rest))
  {
    NotStripped("date:" + bounds, "(", 0);
    Stripped("date:", bounds);
  }

  lemma AnyOfReads(ts: seq<Term>, rest: string)
    requires QuoteFree(AnyOf(ts))
    ensures ReadClause(PrintClause(AnyOf(ts)) + rest) == Some((AnyOf(ts), rest))
  {
    var inner := Join(" || ", PrintTerms(ts));
    assert "(" + inner + ")" + rest == "(" + (inner + (")" + rest));
    Stripped("(", inner + (")" + rest));
    TermsRead(ts, rest);
  }

  lemma BoundReads(c: Clause, rest: string)
    requires c.AtMost? || c.AtLeast?
    requires NoDigitFirst(rest)
    ensures ReadClause(PrintClause(c) + rest) == Some((c, rest))
  {
    hide PrintInt, ReadDate, ReadClause, NoDigitFirst;
    if c.AtMost? {
      assert "date:<= " + PrintInt(c.hi) + rest == "date:" + ("<= " + (PrintInt(c.hi) + rest));
      AtMostReads(c.hi, rest);
      DateClauseReads(c, "<= " + (PrintInt(c.hi) + rest), rest);
    } else {
      assert "date:>= " + PrintInt(c.lo) + rest == "date:" + (">= " + (PrintInt(c.lo) + rest));
      AtLeastReads(c.lo, rest);
      DateClauseReads(c, ">= " + (PrintInt(c.lo) + rest), rest);
    }
  }

  lemma WithinClauseReads(lo: int, hi: int, rest: string)
    ensures ReadClause(PrintClause(Within(lo, hi)) + rest) == Some((Within(lo, hi), rest))
  {
    var a, b := PrintInt(lo), PrintInt(hi);
    assert "date: [" + a + ".." + b + "]" + rest == "date:" + (" [" + (a + (".." + (b + ("]" + rest)))));
    WithinReads(lo, hi, rest);
    DateClauseReads(Within(lo, hi), " [" + (a + (".." + (b + ("]" + rest)))), rest);
  }

  lemma ClauseReads(c: Clause, rest: string)
    requires QuoteFree(c) && NoDigitFirst(rest)
    ensures ReadClause(PrintClause(c) + rest) == Some((c, rest))
  {
    match c {
      case Only(t) => OnlyReads(t, rest);
      case AnyOf(ts) => AnyOfReads(ts, rest);
      case Within(lo, hi) => WithinClauseReads(lo, hi, rest);
      case _ => BoundReads(c, rest);
    }
  }

  lemma OnlyReads(t: Term, rest: string)
    requires NoQuote(t.value)
    ensures ReadClause(PrintTerm(t) + rest) == Some((Only(t), rest))
  {
    var s := PrintTerm(t) + rest;
    assert s[0] == Open(t.field)[0] != '(';
    assert s[0] != 'd';
    NotStripped(s, "(", 0);
    NotStripped(s, "date:", 0);
    TermReads(t, rest);
  }

  lemma ClausesReadStep(c: Clause, more: string, cs: seq<Clause>)
    requires QuoteFree(c) && ReadClauses(more) == Some(cs)
    ensures ReadClauses(PrintClause(c) + (" && " + more)) == Some([c] + cs)
  {
    ClauseReads(c, " && " + more);
    Stripped(" && ", more);
  }

  lemma PrintClausesStep(cs: seq<Clause>)
    requires |cs| > 1
    ensures Join(" && ", PrintClauses(cs)) == PrintClause(cs[0]) + (" && " + Join(" && ", PrintClauses(cs[1..])))
  {
    assert PrintClauses(cs)[1..] == PrintClauses(cs[1..]);
    Assoc(PrintClause(cs[0]), " && ", Join(" && ", PrintClauses(cs[1..])));
  }

  lemma LastClauseReads(c: Clause)
    requires QuoteFree(c)
    ensures ReadClauses(PrintClause(c)) == Some([c])
  {
    assert PrintClause(c) + "" == PrintClause(c);
    ClauseReads(c, "");
  }

  predicate ClausesQuoteFree(cs: seq<Clause>) {
    forall i | 0 <= i < |cs| :: QuoteFree(cs[i])
  }

  lemma {:induction false} ClausesRead(cs: seq<Clause>)
    requires cs != [] && ClausesQuoteFree(cs)
    ensures ReadClauses(Join(" && ", PrintClauses(cs))) == Some(cs)
  {
    var first, others := cs[0], cs[1..];
    if others == [] {
      assert cs == [first];
      assert Join(" && ", PrintClauses(cs)) == PrintClause(first);
      LastClauseReads(first);
    } else {
      PrintClausesStep(cs);
      ClausesRead(others);
      ClausesReadStep(first, Join(" && ", PrintClauses(others)), others);
      assert [first] + others == cs;
    }
  }

  // No value of the request holds a double quote.
  predicate QuoteFreeRequest(f: Filters) {
    && (f.country.Some? ==> NoQuote(f.country.value))
    && (f.storeIds.Some? ==> forall v | v in f.storeIds.value :: NoQuote(v))
    && (f.skus.Some? ==> forall v | v in f.skus.value :: NoQuote(v))
  }

  lemma AnyOfQuoteFree(field: Field, values: Option<seq<string>>)
    requires forall v :: v in OrEmpty(values) ==> NoQuote(v)
    ensures ClausesQuoteFree(AnyOfClause(field, values))
  {
    var ts := TermsOf(field, NonEmpty(OrEmpty(values)));
    forall i | 0 <= i < |ts|
      ensures NoQuote(ts[i].value)
    {
      assert ts[i] in ts;
    }
  }

  lemma ConcatQuoteFree(a: seq<Clause>, b: seq<Clause>)
    requires ClausesQuoteFree(a) && ClausesQuoteFree(b)
    ensures ClausesQuoteFree(a + b)
  {
  }

  lemma RequestClausesQuoteFree(f: Filters)
    requires QuoteFreeRequest(f)
    ensures ClausesQuoteFree(ClausesOf(f))
  {
    var country, stores, skus := CountryClause(f), AnyOfClause(Store, f.storeIds), AnyOfClause(Sku, f.skus);
    AnyOfQuoteFree(Store, f.storeIds);
    AnyOfQuoteFree(Sku, f.skus);
    ConcatQuoteFree(country, stores);
    ConcatQuoteFree(country + stores, skus);
    ConcatQuoteFree(country + stores + skus, DateClause(f));
  }

  // ---------- what reading can yield ----------

  lemma {:induction false} QuotedIsQuoteFree(s: string)
    ensures ReadQuoted(s).Some? ==> NoQuote(ReadQuoted(s).value.0)
  {
    if s != "" && s[0] != '"' {
      QuotedIsQuoteFree(s[1..]);
    }
  }

  lemma TermIsQuoteFree(s: string)
    ensures ReadTerm(s).Some? ==> NoQuote(ReadTerm(s).value.0.value)
  {
    if ReadField(s).Some? {
      QuotedIsQuoteFree(ReadField(s).value.1);
    }
  }

  lemma {:induction false} TermsAreQuoteFree(s: string)
    ensures ReadTerms(s).Some? ==> QuoteFree(AnyOf(ReadTerms(s).value.0))
    decreases |s|
  {
    hide ReadTerm;
    TermIsQuoteFree(s);
    if ReadTerm(s).Some? {
      var next := Strip(ReadTerm(s).value.1, " || ");
      if next.Some? {
        TermsAreQuoteFree(next.value);
      }
    }
  }

  lemma ClauseIsQuoteFree(s: string)
    ensures ReadClause(s).Some? ==> QuoteFree(ReadClause(s).value.0)
  {
    hide ReadTerm, ReadTerms;
    TermIsQuoteFree(s);
    if Strip(s, "(").Some? {
      TermsAreQuoteFree(Strip(s, "(").value);
    }
  }

  // Whatever a text reads as, no value in it holds a quote.
  lemma {:induction false} ClausesAreQuoteFree(s: string)
    ensures ReadClauses(s).Some? ==> ClausesQuoteFree(ReadClauses(s).value)
    decreases |s|
  {
    hide ReadClause, QuoteFree;
    ClauseIsQuoteFree(s);
    if ReadClause(s).Some? {
      var next := Strip(ReadClause(s).value.1, " && ");
      if next.Some? && |next.value| < |s| {
        ClausesAreQuoteFree(next.value);
      }
    }
  }

  lemma QuoteFreeClausesRequest(f: Filters)
    requires ClausesQuoteFree(ClausesOf(f))
    ensures QuoteFreeRequest(f)
  {
    var country, stores, skus := CountryClause(f), AnyOfClause(Store, f.storeIds), AnyOfClause(Sku, f.skus);
    var cs := ClausesOf(f);
    assert forall c :: c in country || c in stores || c in skus ==> c in cs;
    assert country != [] ==> country[0] in cs;
    QuoteFreeList(Store, f.storeIds);
    QuoteFreeList(Sku, f.skus);
  }

  lemma QuoteFreeList(field: Field, values: Option<seq<string>>)
    ensures (forall c :: c in AnyOfClause(field, values) ==> QuoteFree(c)) ==> forall v :: v in OrEmpty(values) ==> NoQuote(v)
  {
    var ts := TermsOf(field, NonEmpty(OrEmpty(values)));
    if forall c :: c in AnyOfClause(field, values) ==> QuoteFree(c) {
      forall v | v in OrEmpty(values)
        ensures NoQuote(v)
      {
        if v != "" {
          assert Is(field, v) in ts;
          assert AnyOfClause(field, values)[0] == AnyOf(ts) && QuoteFree(AnyOf(ts));
          var i :| 0 <= i < |ts| && ts[i] == Is(field, v);
          assert NoQuote(ts[i].value);
        }
      }
    }
  }

  // The printed filter reads back as exactly the clauses it was printed from, exactly when
  // no value of the request holds a double quote.
  lemma FilterTextReadsBack(f: Filters)
    ensures ReadFilter(FilterText(f)) == Some(ClausesOf(f)) <==> QuoteFreeRequest(f)
  {
    hide QuoteFreeRequest, ClausesQuoteFree, ClausesOf;
    var cs := ClausesOf(f);
    if QuoteFreeRequest(f) {
      RequestClausesQuoteFree(f);
      if cs != [] {
        ClausesRead(cs);
      }
    } else if ReadFilter(FilterText(f)) == Some(cs) {
      if cs == [] {
        NothingQuoted();
      } else {
        ClausesAreQuoteFree(FilterText(f).value);
      }
      QuoteFreeClausesRequest(f);
    }
  }

  lemma NothingQuoted()
    ensures ClausesQuoteFree([])
  {
  }

  // ---------- the two filters denote the same predicate ----------

  // The index's answer: the printed text, read back, holds of the document.
  predicate IndexAdmits(f: Filters, doc: Doc) {
    var clauses := ReadFilter(FilterText(f));
    clauses.Some? && AllHold(clauses.value, doc)
  }

  // The WHERE conditions of the fallback statement, without q.
  predicate SqlAdmits(f: Filters, v: Values) {
    && (f.country.Some? && f.country.value != "" ==> v.country == f.country.value)
    && (f.storeIds.Some? && f.storeIds.value != [] ==> v.store in f.storeIds.value)
    && (f.skus.Some? && f.skus.value != [] ==> v.sku in f.skus.value)
    && (f.dateFrom.Some? ==> NotAfter(f.dateFrom.value, v.date))
    && (f.dateTo.Some? ==> NotAfter(v.date, f.dateTo.value))
  }

  lemma AllHoldConcat(a: seq<Clause>, b: seq<Clause>, doc: Doc)
    ensures AllHold(a + b, doc) <==> AllHold(a, doc) && AllHold(b, doc)
  {
    assert forall c :: c in a + b <==> c in a || c in b;
  }

  // The value is one of those listed, empty ones aside, if there are any.
  predicate Listed(values: Option<seq<string>>, v: string) {
    values.Some? && (exists u | u in values.value :: u != "") ==> v != "" && v in values.value
  }

  lemma ListedMeans(values: Option<seq<string>>, v: string)
    ensures Listed(values, v) <==> NonEmpty(OrEmpty(values)) == [] || v in NonEmpty(OrEmpty(values))
  {
    var kept := NonEmpty(OrEmpty(values));
    if kept != [] { assert kept[0] in kept; }
  }

  lemma AnyOfMeans(field: Field, values: Option<seq<string>>, doc: Doc)
    ensures AllHold(AnyOfClause(field, values), doc) <==> Listed(values, FieldOf(field, doc))
  {
    ListedMeans(values, FieldOf(field, doc));
    var vs := NonEmpty(OrEmpty(values));
    var ts := TermsOf(field, vs);
    if ts != [] {
      var c := AnyOf(ts);
      assert AnyOfClause(field, values) == [c];
      assert c in [c];
      if FieldOf(field, doc) in vs {
        assert Is(field, FieldOf(field, doc)) in ts;
      }
    }
  }

  lemma DateClauseMeans(f: Filters, id: Id, v: Values)
    ensures AllHold(DateClause(f), DocOf(id, v)) <==>
            (f.dateFrom.Some? ==> NotAfter(f.dateFrom.value, v.date)) && (f.dateTo.Some? ==> NotAfter(v.date, f.dateTo.value))
  {
    if f.dateFrom.Some? { StampOrder(f.dateFrom.value, v.date); }
    if f.dateTo.Some? { StampOrder(v.date, f.dateTo.value); }
    if DateClause(f) != [] { assert DateClause(f)[0] in DateClause(f); }
  }

  // What the request asks of a row: its country, one of its non-empty stores and skus if
  // there are any, and a date within its bounds.
  predicate Requested(f: Filters, v: Values) {
    && (f.country.Some? && f.country.value != "" ==> v.country == f.country.value)
    && Listed(f.storeIds, v.store)
    && Listed(f.skus, v.sku)
    && (f.dateFrom.Some? ==> NotAfter(f.dateFrom.value, v.date))
    && (f.dateTo.Some? ==> NotAfter(v.date, f.dateTo.value))
  }

  lemma IndexAdmitsMeans(f: Filters, id: Id, v: Values)
    requires QuoteFreeRequest(f)
    ensures IndexAdmits(f, DocOf(id, v)) <==> Requested(f, v)
  {
    var doc := DocOf(id, v);
    FilterTextReadsBack(f);
    var country, stores, skus := CountryClause(f), AnyOfClause(Store, f.storeIds), AnyOfClause(Sku, f.skus);
    AllHoldConcat(country + stores + skus, DateClause(f), doc);
    AllHoldConcat(country + stores, skus, doc);
    AllHoldConcat(country, stores, doc);
    if country != [] { assert country[0] in country; }
    AnyOfMeans(Store, f.storeIds, doc);
    AnyOfMeans(Sku, f.skus, doc);
    DateClauseMeans(f, id, v);
  }
}
