/**
 * The names of durable registers and activities. Every name but the plan's is the
 * JSON text of a tuple: a kind, an id chosen by the workflow, and for decisions
 * and failures the attempt.
 */
module DurableNames {
  import opened Utf16
  import opened Decimals
  import opened JsonText
  import opened Texts

  const COMPENSATE: Text := Ascii("Compensate")
  const DECISION: Text := Ascii("CompensationDecision")
  const FAILURE: Text := Ascii("CompensationFailure")
  const SIGNAL: Text := Ascii("Signal")
  const PLAN: Text := Ascii("CompensationPlan")

  datatype Register =
    | Plan
    | CompensationActivity(step: Text)
    | CompensationDecision(step: Text, attempt: nat)
    | CompensationFailure(step: Text, attempt: nat)
    | Signal(name: Text)

  lemma DecimalIsNumber(n: nat)
    ensures IsNumberText(Decimal(n))
  {
  }

  function Attempt(n: nat): Json {
    DecimalIsNumber(n);
    Num(Finite(Decimal(n)))
  }

  /** The tuple a register's name encodes. */
  function Tuple(r: Register): Json
    requires !r.Plan?
  {
    match r
    case CompensationActivity(step) => Arr([Str(COMPENSATE), Str(step)])
    case CompensationDecision(step, attempt) => Arr([Str(DECISION), Str(step), Attempt(attempt)])
    case CompensationFailure(step, attempt) => Arr([Str(FAILURE), Str(step), Attempt(attempt)])
    case Signal(name) => Arr([Str(SIGNAL), Str(name)])
  }

  function Name(r: Register): Text {
    if r.Plan? then PLAN else Stringify(Tuple(r))
  }

  lemma KindsDiffer()
    ensures DECISION != FAILURE && COMPENSATE != SIGNAL
  {
    assert DECISION[12] != FAILURE[12] && |COMPENSATE| != |SIGNAL|;
  }

  lemma TupleInjective(r: Register, q: Register)
    requires !r.Plan? && !q.Plan? && Tuple(r) == Tuple(q)
    ensures r == q
  {
    KindsDiffer();
    var a, b := Tuple(r).items, Tuple(q).items;
    assert a[0] == b[0] && a[1] == b[1] && |a| == |b|;
    if |a| == 3 {
      hide Decimal, DecimalValue;
      assert a[2] == b[2];
      DecimalReadsBack(r.attempt);
      DecimalReadsBack(q.attempt);
    }
  }

  /** The name of a tuple starts with a bracket, and the plan's does not. */
  lemma NamesStart(r: Register)
    ensures r.Plan? ==> Name(r)[..1] == [0x43]
    ensures !r.Plan? ==> Name(r)[..1] == [LEFT_BRACKET]
  {
    hide Decimal, Quote;
  }

  lemma TupleIsExact(r: Register)
    requires !r.Plan?
    ensures Exact(Tuple(r))
  {
    hide Decimal;
  }

  /** Names never collide, whatever quotes and commas the ids contain. */
  lemma NamesNeverCollide(r: Register, q: Register)
    ensures Name(r) == Name(q) <==> r == q
  {
    hide Stringify, Exact, Tuple;
    NamesStart(r);
    NamesStart(q);
    if !r.Plan? && !q.Plan? && Name(r) == Name(q) {
      TupleIsExact(r);
      TupleIsExact(q);
      StringifyInjective(Tuple(r), Tuple(q));
      TupleInjective(r, q);
    }
  }

  // --- The names, spelled out ---------------------------------------------------------------

  lemma PairText(kind: Text, id: Text)
    ensures Stringify(Arr([Str(kind), Str(id)])) == Ascii("[") + (Quote(kind) + Ascii(",") + Quote(id)) + Ascii("]")
  {
    hide Quote;
    var items := [Str(kind), Str(id)];
    StringifyForms(Arr(items));
    assert ItemTexts(items) == [Quote(kind), Quote(id)];
    assert ItemTexts(items)[1..] == [Quote(id)];
  }

  lemma TripleText(kind: Text, id: Text, n: nat)
    ensures Stringify(Arr([Str(kind), Str(id), Attempt(n)]))
            == Ascii("[") + (Quote(kind) + Ascii(",") + (Quote(id) + Ascii(",") + Decimal(n))) + Ascii("]")
  {
    hide Quote, Decimal;
    var items := [Str(kind), Str(id), Attempt(n)];
    StringifyForms(Arr(items));
    assert ItemTexts(items) == [Quote(kind), Quote(id), Decimal(n)];
    var rest := ItemTexts(items)[1..];
    assert rest == [Quote(id), Decimal(n)] && rest[1..] == [Decimal(n)];
    assert Join(rest, Ascii(",")) == Quote(id) + Ascii(",") + Decimal(n);
  }

  lemma QuotedKind(kind: Text, name: string)
    requires forall i :: 0 <= i < |name| ==> 0x20 <= name[i] as int < 0x80 && name[i] != '\"' && name[i] != '\\'
    requires kind == Ascii(name)
    ensures Quote(kind) == Ascii("\"") + Ascii(name) + Ascii("\"")
  {
    PlainTextQuotes(kind);
  }

  function Quoted(name: string): Text
    requires forall i :: 0 <= i < |name| ==> name[i] as int < 0x80
  {
    Ascii("\"") + Ascii(name) + Ascii("\"")
  }

  /** The text of every name, kind by kind. */
  lemma NameTexts(r: Register)
    ensures Name(r) ==
            match r {
              case Plan => Ascii("CompensationPlan")
              case CompensationActivity(step) =>
                Ascii("[") + (Quoted("Compensate") + Ascii(",") + Quote(step)) + Ascii("]")
              case CompensationDecision(step, attempt) =>
                Ascii("[") + (Quoted("CompensationDecision") + Ascii(",") + (Quote(step) + Ascii(",") + Decimal(attempt)))
                + Ascii("]")
              case CompensationFailure(step, attempt) =>
                Ascii("[") + (Quoted("CompensationFailure") + Ascii(",") + (Quote(step) + Ascii(",") + Decimal(attempt)))
                + Ascii("]")
              case Signal(name) => Ascii("[") + (Quoted("Signal") + Ascii(",") + Quote(name)) + Ascii("]")
            }
  {
    hide Quote, Decimal, Stringify, Ascii;
    match r
    case Plan =>
    case CompensationActivity(step) =>
      QuotedKind(COMPENSATE, "Compensate");
      PairText(COMPENSATE, step);
    case CompensationDecision(step, attempt) =>
      QuotedKind(DECISION, "CompensationDecision");
      TripleText(DECISION, step, attempt);
    case CompensationFailure(step, attempt) =>
      QuotedKind(FAILURE, "CompensationFailure");
      TripleText(FAILURE, step, attempt);
    case Signal(name) =>
      QuotedKind(SIGNAL, "Signal");
      PairText(SIGNAL, name);
  }
}
