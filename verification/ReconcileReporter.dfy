/** The report of a reconciliation run: its summary tables, and its mismatches printed as comma-separated values. */
module ReconcileReporter {
  import opened Text
  import opened MismatchDetector

  // ----- the summary -----

  datatype Summary = Summary(byType: map<Kind, nat>, bySeverity: map<Severity, nat>, byProvider: map<string, nat>)

  function Kinds(ms: seq<Mismatch>): seq<Kind> {
    seq(|ms|, i requires 0 <= i < |ms| => ms[i].kind)
  }

  function Severities(ms: seq<Mismatch>): seq<Severity> {
    seq(|ms|, i requires 0 <= i < |ms| => ms[i].severity)
  }

  function Providers(ms: seq<Mismatch>): seq<string> {
    seq(|ms|, i requires 0 <= i < |ms| => ms[i].provider)
  }

  /** The table says of each of its keys how often it occurs in `s`, and `s` has no other keys. */
  ghost predicate Counts<K>(table: map<K, nat>, s: seq<K>) {
    && (forall k :: k in s ==> k in table)
    && forall k :: k in table ==> table[k] == multiset(s)[k]
  }

  lemma CountsOneMore<K>(table: map<K, nat>, s: seq<K>, k: K)
    requires Counts(table, s)
    ensures Counts(table[k := (if k in table then table[k] else 0) + 1], s + [k])
  {
    assert k !in table ==> k !in s && multiset(s)[k] == 0;
  }

  /** What the three tables say of a list of mismatches. */
  ghost predicate Summarizes(summary: Summary, ms: seq<Mismatch>) {
    && Counts(summary.byType, Kinds(ms)) && (forall k: Kind :: k in summary.byType)
    && Counts(summary.bySeverity, Severities(ms)) && (forall s: Severity :: s in summary.bySeverity)
    && Counts(summary.byProvider, Providers(ms)) && (forall p :: p in summary.byProvider ==> p in Providers(ms))
  }

  const ZEROS: Summary :=
    Summary(map[StatusMismatch := 0, AmountMismatch := 0, MissingLocal := 0, MissingProvider := 0,
                DuplicatePayment := 0, ProviderError := 0],
            map[Low := 0, Medium := 0, High := 0, Critical := 0], map[])

  lemma ZerosSummarize()
    ensures Summarizes(ZEROS, [])
  {
    forall k: Kind ensures k in ZEROS.byType {
      match k { case StatusMismatch => case AmountMismatch => case MissingLocal => case MissingProvider =>
                case DuplicatePayment => case ProviderError => }
    }
    forall s: Severity ensures s in ZEROS.bySeverity {
      match s { case Low => case Medium => case High => case Critical => }
    }
  }

  lemma HasEveryKey(summary: Summary, ms: seq<Mismatch>, m: Mismatch)
    requires Summarizes(summary, ms)
    ensures m.kind in summary.byType && m.severity in summary.bySeverity
  {
  }

  lemma ColumnsAppend(ms: seq<Mismatch>, m: Mismatch)
    ensures Kinds(ms + [m]) == Kinds(ms) + [m.kind]
    ensures Severities(ms + [m]) == Severities(ms) + [m.severity]
    ensures Providers(ms + [m]) == Providers(ms) + [m.provider]
  {
  }

  lemma OneMoreMismatch(summary: Summary, ms: seq<Mismatch>, m: Mismatch)
    requires Summarizes(summary, ms) && m.kind in summary.byType && m.severity in summary.bySeverity
    ensures var seen := if m.provider in summary.byProvider then summary.byProvider[m.provider] else 0;
            Summarizes(Summary(summary.byType[m.kind := summary.byType[m.kind] + 1],
                               summary.bySeverity[m.severity := summary.bySeverity[m.severity] + 1],
                               summary.byProvider[m.provider := seen + 1]), ms + [m])
  {
    hide Counts, Kinds, Severities, Providers;
    CountsOneMore(summary.byType, Kinds(ms), m.kind);
    CountsOneMore(summary.bySeverity, Severities(ms), m.severity);
    CountsOneMore(summary.byProvider, Providers(ms), m.provider);
    ColumnsAppend(ms, m);
  }

  /** `generateSummary`: kinds and severities start at zero, a provider gets its entry when it first occurs. */
  method GenerateSummary(mismatches: seq<Mismatch>) returns (summary: Summary)
    ensures Summarizes(summary, mismatches)
  {
    hide Summarizes, Counts;
    ZerosSummarize();
    summary := ZEROS;
    for i := 0 to |mismatches|
      invariant Summarizes(summary, mismatches[..i])
    {
      var m := mismatches[i];
      assert mismatches[..i + 1] == mismatches[..i] + [m];
      HasEveryKey(summary, mismatches[..i], m);
      OneMoreMismatch(summary, mismatches[..i], m);
      var byType := summary.byType[m.kind := summary.byType[m.kind] + 1];
      var bySeverity := summary.bySeverity[m.severity := summary.bySeverity[m.severity] + 1];
      var byProvider := summary.byProvider;
      if m.provider !in byProvider || byProvider[m.provider] == 0 {
        byProvider := byProvider[m.provider := 0];
      }
      byProvider := byProvider[m.provider := byProvider[m.provider] + 1];
      assert byProvider == summary.byProvider[m.provider := byProvider[m.provider]];
      summary := Summary(byType, bySeverity, byProvider);
    }
    assert mismatches[..|mismatches|] == mismatches;
  }

  ghost function Places<K>(s: seq<K>, k: K): set<int> {
    set i | 0 <= i < |s| && s[i] == k
  }

  lemma {:induction false} OccurrencesAreSize<K>(s: seq<K>, k: K)
    ensures multiset(s)[k] == |Places(s, k)|
  {
    if |s| > 0 {
      var n, p := |s| - 1, s[..|s| - 1];
      assert s == p + [s[n]];
      OccurrencesAreSize(p, k);
      assert Places(s, k) == Places(p, k) + (if s[n] == k then {n} else {});
      assert n !in Places(p, k);
    }
  }

  /** Where the mismatches of a kind, of a severity and of a provider are. */
  ghost function OfKind(ms: seq<Mismatch>, kind: Kind): set<int> {
    set i | 0 <= i < |ms| && ms[i].kind == kind
  }

  ghost function OfSeverity(ms: seq<Mismatch>, severity: Severity): set<int> {
    set i | 0 <= i < |ms| && ms[i].severity == severity
  }

  ghost function OfProvider(ms: seq<Mismatch>, provider: string): set<int> {
    set i | 0 <= i < |ms| && ms[i].provider == provider
  }

  /** The entries of the three tables in terms of the mismatches alone. */
  lemma SummaryEntries(summary: Summary, ms: seq<Mismatch>, kind: Kind, severity: Severity, provider: string)
    requires Summarizes(summary, ms)
    ensures kind in summary.byType && summary.byType[kind] == |OfKind(ms, kind)|
    ensures severity in summary.bySeverity && summary.bySeverity[severity] == |OfSeverity(ms, severity)|
    ensures provider in summary.byProvider <==> OfProvider(ms, provider) != {}
    ensures provider in summary.byProvider ==> summary.byProvider[provider] == |OfProvider(ms, provider)|
  {
    hide Summarizes, OfKind, OfSeverity, OfProvider, Places;
    PlacesAreOf(ms, kind, severity, provider);
    OccurrencesAreSize(Kinds(ms), kind);
    OccurrencesAreSize(Severities(ms), severity);
    OccurrencesAreSize(Providers(ms), provider);
    CountOfKind(summary, ms, kind);
    CountOfSeverity(summary, ms, severity);
    CountOfProvider(summary, ms, provider);
    assert provider in multiset(Providers(ms)) <==> provider in Providers(ms);
  }

  lemma PlacesAreOf(ms: seq<Mismatch>, kind: Kind, severity: Severity, provider: string)
    ensures Places(Kinds(ms), kind) == OfKind(ms, kind)
    ensures Places(Severities(ms), severity) == OfSeverity(ms, severity)
    ensures Places(Providers(ms), provider) == OfProvider(ms, provider)
  {
  }

  lemma CountOfKind(summary: Summary, ms: seq<Mismatch>, kind: Kind)
    requires Summarizes(summary, ms)
    ensures kind in summary.byType && summary.byType[kind] == multiset(Kinds(ms))[kind]
  {
    hide Kinds, Severities, Providers;
  }

  lemma CountOfSeverity(summary: Summary, ms: seq<Mismatch>, severity: Severity)
    requires Summarizes(summary, ms)
    ensures severity in summary.bySeverity && summary.bySeverity[severity] == multiset(Severities(ms))[severity]
  {
    hide Kinds, Severities, Providers;
  }

  lemma CountOfProvider(summary: Summary, ms: seq<Mismatch>, provider: string)
    requires Summarizes(summary, ms)
    ensures provider in summary.byProvider <==> provider in Providers(ms)
    ensures provider in summary.byProvider ==> summary.byProvider[provider] == multiset(Providers(ms))[provider]
  {
    hide Kinds, Severities, Providers;
  }

  /** The sum of all entries. */
  ghost function Total<K(!new)>(table: map<K, nat>): nat
    decreases |table|
  {
    if table == map[] then 0 else var k :| k in table; table[k] + Total(table - {k})
  }

  lemma {:induction false} TotalWithout<K(!new)>(table: map<K, nat>, k: K)
    requires k in table
    ensures Total(table) == table[k] + Total(table - {k})
    decreases |table|
  {
    var j :| j in table && Total(table) == table[j] + Total(table - {j});
    if j != k {
      TotalWithout(table - {j}, k);
      TotalWithout(table - {k}, j);
      assert table - {j} - {k} == table - {k} - {j};
    }
  }

  lemma {:induction false} NothingTotal<K(!new)>(table: map<K, nat>)
    requires forall k :: k in table ==> table[k] == 0
    ensures Total(table) == 0
    decreases |table|
  {
    if table != map[] {
      var k :| k in table;
      TotalWithout(table, k);
      NothingTotal(table - {k});
    }
  }

  /** A table of counts adds up to the number of things counted. */
  lemma {:induction false} CountsAddUp<K(!new)>(table: map<K, nat>, s: seq<K>)
    requires Counts(table, s)
    ensures Total(table) == |s|
  {
    if |s| == 0 {
      NothingTotal(table);
    } else {
      var p, k := s[..|s| - 1], s[|s| - 1];
      assert s == p + [k];
      assert k in s;
      var fewer := table[k := table[k] - 1];
      CountsAddUp(fewer, p);
      TotalWithout(table, k);
      TotalWithout(fewer, k);
      assert fewer - {k} == table - {k};
    }
  }

  /** Each of the three tables sums to the number of mismatches. */
  lemma SummaryIsConserved(summary: Summary, mismatches: seq<Mismatch>)
    requires Summarizes(summary, mismatches)
    ensures Total(summary.byType) == Total(summary.bySeverity) == Total(summary.byProvider) == |mismatches|
  {
    CountsAddUp(summary.byType, Kinds(mismatches));
    CountsAddUp(summary.bySeverity, Severities(mismatches));
    CountsAddUp(summary.byProvider, Providers(mismatches));
  }

  // ----- printing -----

  /** A mismatch with its columns as text; numbers and dates are already printed. */
  datatype Line = Line(id: string, kind: string, severity: string, transactionId: string, orderId: string,
                       provider: string, localStatus: string, providerStatus: Option<string>, localAmount: string,
                       providerAmount: Option<string>, currency: string, recommendedAction: string, detectedAt: string,
                       resolved: bool, resolvedBy: Option<string>, resolvedAt: Option<string>,
                       resolverNotes: Option<string>)

  const HEADERS: seq<string> :=
    ["Mismatch ID", "Type", "Severity", "Transaction ID", "Order ID", "Provider", "Local Status", "Provider Status",
     "Local Amount", "Provider Amount", "Currency", "Recommended Action", "Detected At", "Resolved", "Resolved By",
     "Resolved At", "Notes"]

  /** `s || other`: an absent or empty text is replaced. */
  function OrElse(s: Option<string>, other: string): string {
    if s.Some? && s.value != "" then s.value else other
  }

  /** `s.replace(/"/g, '""')`. */
  function Escape(s: string): string {
    if |s| == 0 then "" else (if s[0] == '"' then "\"\"" else [s[0]]) + Escape(s[1..])
  }

  function Quote(s: string): string {
    "\"" + Escape(s) + "\""
  }

  /** The array that `saveCSVReport` joins for one mismatch. */
  function PrintedRow(m: Line): (row: seq<string>)
    ensures |row| == 17
  {
    [m.id, m.kind, m.severity, m.transactionId, m.orderId, m.provider, m.localStatus, OrElse(m.providerStatus, "N/A"),
     m.localAmount, OrElse(m.providerAmount, "N/A"), m.currency, Quote(m.recommendedAction), m.detectedAt,
     if m.resolved then "Yes" else "No", OrElse(m.resolvedBy, ""), OrElse(m.resolvedAt, ""),
     if m.resolverNotes.Some? && m.resolverNotes.value != "" then Quote(m.resolverNotes.value) else ""]
  }

  /** The same columns as a reader should see them. */
  function Columns(m: Line): (row: seq<string>)
    ensures |row| == 17
  {
    [m.id, m.kind, m.severity, m.transactionId, m.orderId, m.provider, m.localStatus, OrElse(m.providerStatus, "N/A"),
     m.localAmount, OrElse(m.providerAmount, "N/A"), m.currency, m.recommendedAction, m.detectedAt,
     if m.resolved then "Yes" else "No", OrElse(m.resolvedBy, ""), OrElse(m.resolvedAt, ""),
     OrElse(m.resolverNotes, "")]
  }

  /** The column under a header, as a reader should see it. */
  ghost predicate Shows(m: Line, header: string, value: string) {
    exists k :: 0 <= k < 17 && HEADERS[k] == header && Columns(m)[k] == value
  }

  /** What a reader of the file should see under each header. */
  lemma ColumnsUnderHeaders(m: Line)
    ensures Shows(m, "Mismatch ID", m.id)
    ensures Shows(m, "Type", m.kind)
    ensures Shows(m, "Severity", m.severity)
    ensures Shows(m, "Transaction ID", m.transactionId)
    ensures Shows(m, "Order ID", m.orderId)
    ensures Shows(m, "Provider", m.provider)
    ensures Shows(m, "Local Status", m.localStatus)
    ensures Shows(m, "Provider Status", if m.providerStatus in {None, Some("")} then "N/A" else m.providerStatus.value)
    ensures Shows(m, "Local Amount", m.localAmount)
    ensures Shows(m, "Provider Amount", if m.providerAmount in {None, Some("")} then "N/A" else m.providerAmount.value)
    ensures Shows(m, "Currency", m.currency)
    ensures Shows(m, "Recommended Action", m.recommendedAction)
    ensures Shows(m, "Detected At", m.detectedAt)
    ensures Shows(m, "Resolved", if m.resolved then "Yes" else "No")
    ensures Shows(m, "Resolved By", if m.resolvedBy == None then "" else m.resolvedBy.value)
    ensures Shows(m, "Resolved At", if m.resolvedAt == None then "" else m.resolvedAt.value)
    ensures Shows(m, "Notes", if m.resolverNotes == None then "" else m.resolverNotes.value)
  {
    IdentityColumns(m);
    AmountColumns(m);
    ResolutionColumns(m);
    hide Shows;
  }

  lemma IdentityColumns(m: Line)
    ensures Shows(m, "Mismatch ID", m.id)
    ensures Shows(m, "Type", m.kind)
    ensures Shows(m, "Severity", m.severity)
    ensures Shows(m, "Transaction ID", m.transactionId)
    ensures Shows(m, "Order ID", m.orderId)
    ensures Shows(m, "Provider", m.provider)
  {
    assert HEADERS[0] == "Mismatch ID";
    assert HEADERS[1] == "Type";
    assert HEADERS[2] == "Severity";
    assert HEADERS[3] == "Transaction ID";
    assert HEADERS[4] == "Order ID";
    assert HEADERS[5] == "Provider";
  }

  lemma AmountColumns(m: Line)
    ensures Shows(m, "Local Status", m.localStatus)
    ensures Shows(m, "Provider Status", if m.providerStatus in {None, Some("")} then "N/A" else m.providerStatus.value)
    ensures Shows(m, "Local Amount", m.localAmount)
    ensures Shows(m, "Provider Amount", if m.providerAmount in {None, Some("")} then "N/A" else m.providerAmount.value)
    ensures Shows(m, "Currency", m.currency)
    ensures Shows(m, "Recommended Action", m.recommendedAction)
  {
    assert HEADERS[6] == "Local Status";
    assert HEADERS[7] == "Provider Status";
    assert HEADERS[8] == "Local Amount";
    assert HEADERS[9] == "Provider Amount";
    assert HEADERS[10] == "Currency";
    assert HEADERS[11] == "Recommended Action";
  }

  lemma ResolutionColumns(m: Line)
    ensures Shows(m, "Detected At", m.detectedAt)
    ensures Shows(m, "Resolved", if m.resolved then "Yes" else "No")
    ensures Shows(m, "Resolved By", if m.resolvedBy == None then "" else m.resolvedBy.value)
    ensures Shows(m, "Resolved At", if m.resolvedAt == None then "" else m.resolvedAt.value)
    ensures Shows(m, "Notes", if m.resolverNotes == None then "" else m.resolverNotes.value)
  {
    assert HEADERS[12] == "Detected At";
    assert HEADERS[13] == "Resolved";
    assert HEADERS[14] == "Resolved By";
    assert HEADERS[15] == "Resolved At";
    assert HEADERS[16] == "Notes";
  }

  /** The columns that are printed inside quotes. */
  predicate IsQuoted(k: nat) {
    k == 11 || k == 16
  }

  function MapRows(ms: seq<Line>, row: Line -> seq<string>): (rows: seq<seq<string>>)
    ensures |rows| == |ms| && forall i :: 0 <= i < |ms| ==> rows[i] == row(ms[i])
  {
    seq(|ms|, i requires 0 <= i < |ms| => row(ms[i]))
  }

  function Lines(rows: seq<seq<string>>): (lines: seq<string>)
    ensures |lines| == |rows|
  {
    seq(|rows|, i requires 0 <= i < |rows| => Join(rows[i], ","))
  }

  /** The text that `saveCSVReport` writes. */
  function Csv(ms: seq<Line>): string {
    Join([Join(HEADERS, ",")] + Lines(MapRows(ms, PrintedRow)), "\n")
  }

  // ----- reading: RFC 4180, section 2, with LF as the line end -----

  /** What was read, and the text that follows. */
  datatype Read<T> = Read(value: T, rest: string)

  function AddChar(c: char, r: Option<Read<string>>): Option<Read<string>> {
    match r
    case None => None
    case Some(f) => Some(Read([c] + f.value, f.rest))
  }

  /** The inside of a quoted field up to its closing quote, two quotes standing for one. */
  function ReadQuoted(s: string): (r: Option<Read<string>>)
    ensures r.Some? ==> |r.value.rest| < |s|
  {
    if |s| == 0 then None
    else if s[0] != '"' then AddChar(s[0], ReadQuoted(s[1..]))
    else if |s| > 1 && s[1] == '"' then AddChar('"', ReadQuoted(s[2..]))
    else Some(Read("", s[1..]))
  }

  /** A field without quotes ends before a comma or a line end; a quote or a carriage return cannot be in it. */
  function ReadBare(s: string): (r: Option<Read<string>>)
    ensures r.Some? ==> |r.value.rest| <= |s|
  {
    if |s| == 0 || s[0] == ',' || s[0] == '\n' then Some(Read("", s))
    else if s[0] == '"' || s[0] == '\r' then None
    else AddChar(s[0], ReadBare(s[1..]))
  }

  function ReadField(s: string): (r: Option<Read<string>>)
    ensures r.Some? ==> |r.value.rest| <= |s|
  {
    if |s| > 0 && s[0] == '"' then ReadQuoted(s[1..]) else ReadBare(s)
  }

  /** The fields of one record; what follows it is a line end or nothing. */
  function ReadRecord(s: string): (r: Option<Read<seq<string>>>)
    ensures r.Some? ==> |r.value.rest| <= |s| && |r.value.value| > 0
    decreases |s|
  {
    match ReadField(s)
    case None => None
    case Some(f) =>
      if |f.rest| == 0 || f.rest[0] == '\n' then Some(Read([f.value], f.rest))
      else if f.rest[0] != ',' then None
      else
        match ReadRecord(f.rest[1..])
        case None => None
        case Some(more) => Some(Read([f.value] + more.value, more.rest))
  }

  /** The records of a file, whose last one may end with a line end. */
  function ReadFile(s: string): Option<seq<seq<string>>>
    decreases |s|
  {
    match ReadRecord(s)
    case None => None
    case Some(r) =>
      if |r.rest| <= 1 then Some([r.value])
      else
        match ReadFile(r.rest[1..])
        case None => None
        case Some(more) => Some([r.value] + more)
  }

  // ----- one field -----

  predicate NeedsQuotes(c: char) {
    c == ',' || c == '"' || c == '\n' || c == '\r'
  }

  /** Text that RFC 4180 allows outside quotes. */
  predicate Plain(s: string) {
    forall i :: 0 <= i < |s| ==> !NeedsQuotes(s[i])
  }

  /** A printed field is followed by a comma, a line end or nothing. */
  predicate Ends(rest: string) {
    |rest| == 0 || rest[0] == ',' || rest[0] == '\n'
  }

  lemma {:induction false} QuotedReadsBack(v: string, rest: string)
    requires Ends(rest)
    ensures ReadQuoted(Escape(v) + "\"" + rest) == Some(Read(v, rest))
  {
    var s := Escape(v) + "\"" + rest;
    if |v| == 0 {
      assert s == "\"" + rest;
      assert s[1..] == rest;
    } else {
      QuotedReadsBack(v[1..], rest);
      var more := Escape(v[1..]) + "\"" + rest;
      var first := if v[0] == '"' then "\"\"" else [v[0]];
      assert Escape(v) == first + Escape(v[1..]);
      hide Escape;
      assert s == first + more;
      assert s[|first|..] == more;
      assert v == [v[0]] + v[1..];
    }
  }

  /** What a quoted field was printed from. */
  lemma {:induction false} ReadQuotedInverts(s: string)
    requires ReadQuoted(s).Some?
    ensures var f := ReadQuoted(s).value; s == Escape(f.value) + "\"" + f.rest
  {
    var f := ReadQuoted(s).value;
    if s[0] != '"' {
      ReadQuotedInverts(s[1..]);
      assert f.value[1..] == ReadQuoted(s[1..]).value.value;
      assert s == [s[0]] + s[1..];
    } else if |s| > 1 && s[1] == '"' {
      ReadQuotedInverts(s[2..]);
      assert f.value[1..] == ReadQuoted(s[2..]).value.value;
      assert s == "\"\"" + s[2..];
    } else {
      assert s == "\"" + s[1..];
    }
  }

  function Quotes(n: nat): (q: string)
    ensures |q| == n && forall i :: 0 <= i < n ==> q[i] == '"'
  {
    seq(n, i => '"')
  }

  /** No text printed without quotes can be read as itself through quotes. */
  lemma {:induction false} NotItsOwnQuotation(v: string, rest: string, n: nat, tail: string)
    requires n > 0 && Ends(rest)
    ensures v + rest != Quotes(n) + (Escape(v) + "\"" + tail)
    decreases |v|
  {
    if v + rest == Quotes(n) + (Escape(v) + "\"" + tail) {
      assert (v + rest)[0] == Quotes(n)[0];
      if |v| > 0 {
        assert v[0] == '"';
        var left, right := v[1..] + rest, Quotes(n + 1) + (Escape(v[1..]) + "\"" + tail);
        assert v + rest == ['"'] + left;
        assert Escape(v) == "\"\"" + Escape(v[1..]);
        assert Quotes(n) + (Escape(v) + "\"" + tail) == (Quotes(n) + "\"\"") + (Escape(v[1..]) + "\"" + tail);
        assert Quotes(n) + "\"\"" == ['"'] + Quotes(n + 1);
        assert v + rest == ['"'] + right;
        assert left == (['"'] + left)[1..] == (['"'] + right)[1..] == right;
        NotItsOwnQuotation(v[1..], rest, n + 1, tail);
        assert false;
      }
    }
  }

  /** Without quotes: the value comes back exactly when it is plain. */
  lemma {:induction false} BareReadsBackIff(v: string, rest: string)
    requires Ends(rest)
    ensures Plain(v) ==> ReadBare(v + rest) == Some(Read(v, rest))
    ensures !Plain(v) ==> ReadBare(v + rest).None? || ReadBare(v + rest).value.value != v
  {
    if |v| == 0 {
      assert v + rest == rest;
    } else {
      assert (v + rest)[1..] == v[1..] + rest;
      assert v == [v[0]] + v[1..];
      BareReadsBackIff(v[1..], rest);
      if !NeedsQuotes(v[0]) && Plain(v[1..]) {
        forall i | 0 <= i < |v| ensures !NeedsQuotes(v[i]) {
          assert i > 0 ==> v[1..][i - 1] == v[i];
        }
      }
    }
  }

  lemma FieldReadsBackIff(v: string, rest: string)
    requires Ends(rest)
    ensures ReadField(Quote(v) + rest) == Some(Read(v, rest))
    ensures Plain(v) ==> ReadField(v + rest) == Some(Read(v, rest))
    ensures !Plain(v) ==> ReadField(v + rest).None? || ReadField(v + rest).value.value != v
  {
    QuotedReadsBack(v, rest);
    var q := Quote(v) + rest;
    assert q[1..] == Escape(v) + "\"" + rest;
    BareReadsBackIff(v, rest);
    var s := v + rest;
    if |s| > 0 && s[0] == '"' {
      assert v != "";
      assert v[0] == '"';
      if ReadField(s).Some? && ReadField(s).value.value == v {
        ReadQuotedInverts(s[1..]);
        var tail := ReadField(s).value.rest;
        assert s == Quotes(1) + (Escape(v) + "\"" + tail);
        NotItsOwnQuotation(v, rest, 1, tail);
        assert false;
      }
    }
  }

  // ----- one record -----

  /** Each column is printed as it is or inside quotes. */
  predicate Prints(printed: seq<string>, values: seq<string>) {
    && |printed| == |values| > 0
    && forall k :: 0 <= k < |values| ==> printed[k] == values[k] || printed[k] == Quote(values[k])
  }

  /** The columns printed as they are need no quotes. */
  predicate BareArePlain(printed: seq<string>, values: seq<string>)
    requires |printed| == |values|
  {
    forall k :: 0 <= k < |values| && printed[k] == values[k] ==> Plain(values[k])
  }

  lemma {:induction false} EscapeLength(v: string)
    ensures |Escape(v)| >= |v|
  {
    if |v| > 0 { EscapeLength(v[1..]); }
  }

  lemma QuoteIsLonger(v: string)
    ensures |Quote(v)| > |v|
  {
    EscapeLength(v);
  }

  /** What follows the first column of a record. */
  function AfterFirst(printed: seq<string>, rest: string): string
    requires |printed| > 0
  {
    if |printed| == 1 then rest else "," + (Join(printed[1..], ",") + rest)
  }

  lemma Associate(a: string, b: string, c: string, d: string)
    ensures (a + b + c) + d == a + (b + (c + d))
  {
  }

  lemma FirstOfJoin(printed: seq<string>, rest: string)
    requires |printed| > 0
    ensures Join(printed, ",") + rest == printed[0] + AfterFirst(printed, rest)
  {
    if |printed| > 1 {
      var first, more := printed[0], Join(printed[1..], ",");
      assert Join(printed, ",") == first + "," + more;
      hide Join;
      Associate(first, ",", more, rest);
    } else {
      assert Join(printed, ",") == printed[0];
    }
  }

  lemma FirstField(printed: seq<string>, values: seq<string>, rest: string)
    requires Prints(printed, values) && (|rest| == 0 || rest[0] == '\n')
    ensures var r := ReadField(Join(printed, ",") + rest);
            if printed[0] == values[0] && !Plain(values[0]) then r.None? || r.value.value != values[0]
            else r == Some(Read(values[0], AfterFirst(printed, rest)))
  {
    FirstOfJoin(printed, rest);
    assert Ends(AfterFirst(printed, rest));
    hide ReadField, Plain, Escape, Quote, Join, AfterFirst;
    FieldReadsBackIff(values[0], AfterFirst(printed, rest));
    QuoteIsLonger(values[0]);
  }

  /** A record is read back exactly when its bare columns are plain. */
  lemma {:induction false} RecordReadsBackIff(printed: seq<string>, values: seq<string>, rest: string)
    requires Prints(printed, values) && (|rest| == 0 || rest[0] == '\n')
    ensures var r := ReadRecord(Join(printed, ",") + rest);
            if BareArePlain(printed, values) then r == Some(Read(values, rest)) else r.None? || r.value.value != values
    decreases |printed|
  {
    var s := Join(printed, ",") + rest;
    FirstField(printed, values, rest);
    if |printed| == 1 {
      assert values == [values[0]];
    } else {
      var more := Join(printed[1..], ",") + rest;
      RecordReadsBackIff(printed[1..], values[1..], rest);
      assert values == [values[0]] + values[1..];
      assert ("," + more)[1..] == more;
      assert BareArePlain(printed, values) <==>
        (printed[0] == values[0] ==> Plain(values[0])) && BareArePlain(printed[1..], values[1..]) by {
        PlainFromFirst(printed, values);
      }
      hide ReadField, Join, Plain, BareArePlain;
    }
  }

  lemma PlainFromFirst(printed: seq<string>, values: seq<string>)
    requires |printed| == |values| > 0
    ensures BareArePlain(printed, values)
            <==> (printed[0] == values[0] ==> Plain(values[0])) && BareArePlain(printed[1..], values[1..])
  {
    hide Plain;
    if BareArePlain(printed[1..], values[1..]) && (printed[0] == values[0] ==> Plain(values[0])) {
      forall k | 0 <= k < |values| && printed[k] == values[k] ensures Plain(values[k]) {
        assert k > 0 ==> printed[1..][k - 1] == printed[k] && values[1..][k - 1] == values[k];
      }
    }
  }

  // ----- the whole file -----

  /** The columns printed without quotes hold no comma, quote or line break. */
  predicate BareColumnsPlain(m: Line) {
    forall k :: 0 <= k < 17 && !IsQuoted(k) ==> Plain(Columns(m)[k])
  }

  /** The quoted columns are the advice and the notes, the latter only when there are any. */
  lemma RowPrints(m: Line)
    ensures Prints(PrintedRow(m), Columns(m))
    ensures BareArePlain(PrintedRow(m), Columns(m)) <==> BareColumnsPlain(m)
  {
    hide Plain, Escape;
    EscapeLength(m.recommendedAction);
    EscapeLength(OrElse(m.resolverNotes, ""));
    assert Plain("") by { EmptyIsPlain(); }
    forall k | 0 <= k < 17 && !IsQuoted(k)
      ensures PrintedRow(m)[k] == Columns(m)[k]
    {
    }
  }

  lemma EmptyIsPlain()
    ensures Plain("")
  {
  }

  ghost predicate AllPrint(printed: seq<seq<string>>, values: seq<seq<string>>) {
    && |printed| == |values| > 0
    && forall i :: 0 <= i < |values| ==> |printed[i]| > 1 && Prints(printed[i], values[i])
  }

  ghost predicate AllBarePlain(printed: seq<seq<string>>, values: seq<seq<string>>)
    requires AllPrint(printed, values)
  {
    forall i :: 0 <= i < |values| ==> BareArePlain(printed[i], values[i])
  }

  lemma FirstLine(printed: seq<seq<string>>)
    requires |printed| > 0 && forall i :: 0 <= i < |printed| ==> |printed[i]| > 1
    ensures var text := Join(Lines(printed), "\n");
            if |printed| == 1 then text == Join(printed[0], ",") + ""
            else text == Join(printed[0], ",") + ("\n" + Join(Lines(printed[1..]), "\n"))
                 && |Join(Lines(printed[1..]), "\n")| > 0
  {
    if |printed| > 1 {
      assert Lines(printed)[1..] == Lines(printed[1..]);
      assert |Join(printed[1], ",")| > 0;
      assert Lines(printed[1..])[0] == Join(printed[1], ",");
    }
  }

  lemma {:induction false} FileReadsBackIff(printed: seq<seq<string>>, values: seq<seq<string>>)
    requires AllPrint(printed, values)
    ensures ReadFile(Join(Lines(printed), "\n")) == Some(values) <==> AllBarePlain(printed, values)
    decreases |printed|
  {
    FirstLine(printed);
    var text := Join(Lines(printed), "\n");
    if |printed| == 1 {
      RecordReadsBackIff(printed[0], values[0], "");
      hide ReadRecord, Join, Prints, BareArePlain, Lines;
      assert values == [values[0]];
    } else {
      var more := Join(Lines(printed[1..]), "\n");
      RecordReadsBackIff(printed[0], values[0], "\n" + more);
      FileReadsBackIff(printed[1..], values[1..]);
      hide ReadRecord, Join, Prints, BareArePlain, Lines;
      assert ("\n" + more)[1..] == more;
      assert values == [values[0]] + values[1..];
      AllFromFirst(printed, values);
    }
  }

  lemma AllFromFirst(printed: seq<seq<string>>, values: seq<seq<string>>)
    requires AllPrint(printed, values) && |printed| > 1
    ensures AllPrint(printed[1..], values[1..])
    ensures AllBarePlain(printed, values)
            <==> BareArePlain(printed[0], values[0]) && AllBarePlain(printed[1..], values[1..])
  {
    hide BareArePlain;
    if BareArePlain(printed[0], values[0]) && AllBarePlain(printed[1..], values[1..]) {
      forall i | 0 <= i < |values| ensures BareArePlain(printed[i], values[i]) {
        assert i > 0 ==> printed[1..][i - 1] == printed[i] && values[1..][i - 1] == values[i];
      }
    }
  }

  lemma IdHeadersPlain()
    ensures Plain("Mismatch ID") && Plain("Type") && Plain("Severity") && Plain("Transaction ID") && Plain("Order ID")
  {
  }

  lemma StatusHeadersPlain()
    ensures Plain("Provider") && Plain("Local Status") && Plain("Provider Status") && Plain("Local Amount")
  {
  }

  lemma AmountHeadersPlain()
    ensures Plain("Provider Amount") && Plain("Currency") && Plain("Recommended Action")
  {
  }

  lemma ResolutionHeadersPlain()
    ensures Plain("Detected At") && Plain("Resolved") && Plain("Resolved By") && Plain("Resolved At") && Plain("Notes")
  {
  }

  lemma HeadersPlain(k: nat)
    requires k < 17
    ensures Plain(HEADERS[k])
  {
    hide Plain;
    IdHeadersPlain();
    StatusHeadersPlain();
    AmountHeadersPlain();
    ResolutionHeadersPlain();
  }

  lemma HeadersPrint()
    ensures Prints(HEADERS, HEADERS) && BareArePlain(HEADERS, HEADERS)
  {
    hide Plain, Quote;
    assert |HEADERS| == 17;
    hide HEADERS;
    forall k | 0 <= k < |HEADERS| ensures Plain(HEADERS[k]) { HeadersPlain(k); }
  }

  /** The printed report is read back, header and every row, exactly when no column printed without quotes holds a
      comma, a quote or a line break; the advice and the notes may be any text. */
  lemma CsvReadsBackIff(ms: seq<Line>)
    ensures ReadFile(Csv(ms)) == Some([HEADERS] + MapRows(ms, Columns))
            <==> forall i :: 0 <= i < |ms| ==> BareColumnsPlain(ms[i])
  {
    var printed, values := [HEADERS] + MapRows(ms, PrintedRow), [HEADERS] + MapRows(ms, Columns);
    hide HEADERS, Lines, ReadFile, Join, AllPrint, AllBarePlain, BareColumnsPlain;
    CsvIsLines(ms);
    RowsPrint(ms);
    FileReadsBackIff(printed, values);
  }

  lemma CsvIsLines(ms: seq<Line>)
    ensures Csv(ms) == Join(Lines([HEADERS] + MapRows(ms, PrintedRow)), "\n")
  {
    hide Join, HEADERS, PrintedRow;
    assert Lines([HEADERS] + MapRows(ms, PrintedRow)) == [Join(HEADERS, ",")] + Lines(MapRows(ms, PrintedRow));
  }

  lemma RowsPrint(ms: seq<Line>)
    ensures var printed, values := [HEADERS] + MapRows(ms, PrintedRow), [HEADERS] + MapRows(ms, Columns);
            AllPrint(printed, values)
                && (AllBarePlain(printed, values) <==> forall i :: 0 <= i < |ms| ==> BareColumnsPlain(ms[i]))
  {
    var printed, values := [HEADERS] + MapRows(ms, PrintedRow), [HEADERS] + MapRows(ms, Columns);
    HeadersPrint();
    assert |HEADERS| == 17;
    hide Prints, BareArePlain, BareColumnsPlain, PrintedRow, Columns, HEADERS;
    forall i | 0 <= i < |printed|
      ensures |printed[i]| > 1 && Prints(printed[i], values[i])
      ensures BareArePlain(printed[i], values[i]) <==> i == 0 || BareColumnsPlain(ms[i - 1])
    {
      if i > 0 { RowPrints(ms[i - 1]); }
    }
    forall i | 0 <= i < |ms| ensures BareColumnsPlain(ms[i]) <==> BareArePlain(printed[i + 1], values[i + 1]) {
    }
  }
}
