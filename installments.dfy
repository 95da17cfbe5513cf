/**
 * `handleNovaAssinatura` and `criarAssinaturasComParcelas`: the form's
 * input gate, and the loop that turns one submission into one create
 * request per installment, each due `i` months after the first.
 */
module Installments {
  import opened Wrappers
  import opened Text
  import opened Calendar
  import opened Records

  /** The raw values of the form fields, as typed. */
  datatype Form = Form(nome: string, valor: string, data: string, parcelaAtual: string, quantidadeParcelas: string)

  /** What the gate hands to the expansion. */
  datatype Submission = Submission(
    uid: string,
    nome: string,
    valor: real,
    data: string,
    parcelaAtual: real,
    quantidadeParcelas: real)

  datatype ValidationError = MissingField

  /** The document passed to one create call of the store. */
  datatype CreateRequest = CreateRequest(
    uid: string,
    nome: string,
    valor: real,
    data: DueField,
    paga: bool,
    parcelaAtual: nat,
    quantidadeParcelas: real)

  /** `x || 0` on a number. */
  function OrZero(x: JsNumber): (r: real)
    ensures x.Num? && x.value != 0.0 ==> r == x.value
    ensures (x.NaN? || x.value == 0.0) ==> r == 0.0
  {
    if x.NaN? then 0.0 else x.value
  }

  /** `x || 1` on a number: never zero. */
  function OrOne(x: JsNumber): (r: real)
    ensures r != 0.0
    ensures x.Num? && x.value != 0.0 ==> r == x.value
    ensures (x.NaN? || x.value == 0.0) ==> r == 1.0
  {
    if x.NaN? || x.value == 0.0 then 1.0 else x.value
  }

  /**
   * The gate of `handleNovaAssinatura`: an empty field aborts before any
   * create call; otherwise the numeric fields are converted, with `NaN`
   * and zero counts defaulting to 1. `parseFloat` and `toNumber` stand for
   * JavaScript's `parseFloat` and `Number` on strings.
   */
  function Validate(form: Form, uid: string, parseFloat: string -> JsNumber, toNumber: string -> JsNumber)
    : (r: Result<Submission, ValidationError>)
    ensures r.Failure? <==>
      form.nome == "" || form.valor == "" || form.data == "" || form.parcelaAtual == "" || form.quantidadeParcelas == ""
    ensures r.Success? ==>
      && r.value.uid == uid && r.value.nome == form.nome && r.value.data == form.data
      && r.value.valor == OrZero(parseFloat(form.valor))
      && r.value.parcelaAtual == OrOne(toNumber(form.parcelaAtual))
      && r.value.quantidadeParcelas == OrOne(toNumber(form.quantidadeParcelas))
    ensures r.Success? ==> r.value.parcelaAtual != 0.0 && r.value.quantidadeParcelas != 0.0
  {
    if form.nome == "" || form.valor == "" || form.data == "" || form.parcelaAtual == "" || form.quantidadeParcelas == ""
    then Failure(MissingField)
    else
      Success(Submission(
        uid, form.nome, OrZero(parseFloat(form.valor)), form.data,
        OrOne(toNumber(form.parcelaAtual)), OrOne(toNumber(form.quantidadeParcelas))))
  }

  /**
   * The date of `new Date(data + "T00:00:00")` for a date-input value
   * `YYYY-MM-DD`; anything else (or a day the month does not have) gives
   * an invalid date.
   */
  function ParseDateInput(s: string): (d: Option<Date>)
    ensures d.Some? ==> ValidDate(d.value) && |s| == 10 && s[4] == '-' && s[7] == '-'
  {
    if |s| == 10 && s[4] == '-' && s[7] == '-' && AllDigits(s[..4]) && AllDigits(s[5..7]) && AllDigits(s[8..]) then
      var y, m, d := ParseNat(s[..4]), ParseNat(s[5..7]), ParseNat(s[8..]);
      if 1 <= m <= 12 && 1 <= d <= DaysInMonth(y, m) then Some(Date(y, m, d)) else None
    else None
  }

  /** The value a date input holds for a date: `YYYY-MM-DD`. */
  function FormatDateInput(d: Date): string {
    PadStart(NatToString(d.year), 4) + "-" + PadStart(NatToString(d.month), 2) + "-" + PadStart(NatToString(d.day), 2)
  }

  lemma PaddedField(n: nat, width: nat)
    requires n < Power10(width) && width >= 1
    ensures var f := PadStart(NatToString(n), width);
            |f| == width && AllDigits(f) && ParseNat(f) == n
  {
    NatToStringLength(n, width, Power10(width));
    ParseNatPadStart(NatToString(n), width);
    ParseNatToString(n);
  }

  /** Every date with a four-digit year reads back from its date-input value. */
  lemma ParseFormatDateInput(d: Date)
    requires ValidDate(d) && d.year < 10000
    ensures ParseDateInput(FormatDateInput(d)) == Some(d)
  {
    assert Power10(4) == 10000 && Power10(2) == 100;
    PaddedField(d.year, 4);
    PaddedField(d.month, 2);
    PaddedField(d.day, 2);
    var y, m, dd := PadStart(NatToString(d.year), 4), PadStart(NatToString(d.month), 2), PadStart(NatToString(d.day), 2);
    var s := FormatDateInput(d);
    assert s == y + "-" + m + "-" + dd;
    assert s[..4] == y && s[5..7] == m && s[8..] == dd;
  }

  /**
   * Only the `YYYY-MM-DD` spelling of a date parses: any value that parses
   * is the date-input value of the date it parses to.
   */
  lemma ParseThenFormat(s: string)
    requires ParseDateInput(s).Some?
    ensures FormatDateInput(ParseDateInput(s).value) == s
  {
    var d := ParseDateInput(s).value;
    Unparse(s[..4], 4);
    Unparse(s[5..7], 2);
    Unparse(s[8..], 2);
    assert s == s[..4] + "-" + s[5..7] + "-" + s[8..];
  }

  /** The due field of the first installment: local midnight of the entered date. */
  function BaseDue(data: string): (due: DueField)
    ensures due.At? <==> ParseDateInput(data).Some?
    ensures due.At? ==> due.instant == Instant(ParseDateInput(data).value, 0) && ValidDate(due.instant.date)
    ensures !due.At? ==> due == InvalidDate
  {
    match ParseDateInput(data)
    case Some(d) => At(Instant(d, 0))
    case None => InvalidDate
  }

  /**
   * `new Date(base)` followed by `setMonth(base.getMonth() + i)`; an
   * invalid date stays invalid.
   */
  function DueAfter(base: DueField, i: nat): (due: DueField)
    ensures due.At? <==> base.At?
    ensures !base.At? ==> due == base
    ensures due.At? ==> ValidDate(due.instant.date) && due.instant.ms == base.instant.ms
    ensures base.At? && ValidDate(base.instant.date) && i == 0 ==> due == base
  {
    match base
    case At(t) =>
      assert ValidDate(t.date) && i == 0 ==> AddMonths(t.date, i) == t.date by {
        if ValidDate(t.date) && i == 0 { AddMonthsZero(t.date); }
      }
      At(Instant(AddMonths(t.date, i), t.ms))
    case other => other
  }

  /** How many times `for (let i = 0; i < q; i++)` runs: the ceiling of `q`, or none. */
  function Iterations(q: real): (n: nat)
    ensures q <= 0.0 ==> n == 0
    ensures q > 0.0 ==> ((n - 1) as real) < q <= n as real
  {
    if q <= 0.0 then 0 else if q.Floor as real == q then q.Floor else q.Floor + 1
  }

  /** The loop runs exactly for the `i` below `Iterations(q)`. */
  lemma IterationsExact(q: real, i: nat)
    ensures (i as real) < q <==> i < Iterations(q)
  {
  }

  /** Request `i` of the batch for a submission. */
  function RequestAt(s: Submission, i: nat): CreateRequest {
    CreateRequest(s.uid, s.nome, s.valor, DueAfter(BaseDue(s.data), i), false, i + 1, s.quantidadeParcelas)
  }

  /** The create requests one submission issues, in order. */
  function Expansion(s: Submission): (rs: seq<CreateRequest>)
    ensures |rs| == Iterations(s.quantidadeParcelas)
    ensures forall i | 0 <= i < |rs| :: rs[i].parcelaAtual == i + 1
    ensures forall r | r in rs ::
      r.uid == s.uid && r.nome == s.nome && r.valor == s.valor && !r.paga
      && r.quantidadeParcelas == s.quantidadeParcelas
  {
    seq(Iterations(s.quantidadeParcelas), i requires 0 <= i => RequestAt(s, i))
  }

  /** The store's create calls, in the order they were issued. */
  class RecordStore {
    var log: seq<CreateRequest>

    constructor ()
      ensures log == []
    {
      log := [];
    }

    /**
     * `criarAssinatura`: one `addDoc` call. The store may reject it (the
     * error is rethrown), in which case nothing is stored; which calls fail
     * is the store's choice, not the caller's.
     */
    method Create(request: CreateRequest) returns (ok: bool)
      modifies this
      ensures ok ==> log == old(log) + [request]
      ensures !ok ==> log == old(log)
    {
      ok :| true;
      if ok {
        log := log + [request];
      }
    }
  }

  /**
   * `criarAssinaturasComParcelas`: one create call per loop round, with
   * the due date advanced by `i` months from the first. A rejected call
   * ends the loop (the `await` rethrows): `stored` requests were saved
   * before it, and they stay saved.
   */
  method CriarAssinaturasComParcelas(store: RecordStore, s: Submission) returns (ok: bool, stored: nat)
    modifies store
    ensures stored <= |Expansion(s)|
    ensures store.log == old(store.log) + Expansion(s)[..stored]
    ensures ok <==> stored == |Expansion(s)|
  {
    var dataVencimentoBase := BaseDue(s.data);
    var i: nat := 0;
    while (i as real) < s.quantidadeParcelas
      invariant i <= Iterations(s.quantidadeParcelas)
      invariant store.log == old(store.log) + Expansion(s)[..i]
      decreases Iterations(s.quantidadeParcelas) - i
    {
      IterationsExact(s.quantidadeParcelas, i);
      var dataVencimento := DueAfter(dataVencimentoBase, i);
      // `parseFloat(valor) || 0` again on the converted amount: a finite
      // number reads back as itself, and 0 stays 0.
      var created := store.Create(CreateRequest(s.uid, s.nome, s.valor, dataVencimento, false, i + 1, s.quantidadeParcelas));
      if !created {
        return false, i;
      }
      assert Expansion(s)[..i + 1] == Expansion(s)[..i] + [RequestAt(s, i)];
      i := i + 1;
    }
    IterationsExact(s.quantidadeParcelas, i);
    return true, i;
  }

  /**
   * `handleNovaAssinatura`: a rejected form stores nothing; an accepted
   * one stores a prefix of the expansion of its submission, all of it
   * when every create call succeeds (`saved`).
   */
  method HandleNovaAssinatura(
    store: RecordStore, form: Form, uid: string,
    parseFloat: string -> JsNumber, toNumber: string -> JsNumber)
    returns (accepted: bool, saved: bool)
    modifies store
    ensures accepted <==> Validate(form, uid, parseFloat, toNumber).Success?
    ensures !accepted ==> !saved && store.log == old(store.log)
    ensures accepted ==>
      var batch := Expansion(Validate(form, uid, parseFloat, toNumber).value);
      exists k | 0 <= k <= |batch| :: store.log == old(store.log) + batch[..k] && (saved <==> k == |batch|)
  {
    var submission := Validate(form, uid, parseFloat, toNumber);
    if submission.Failure? {
      return false, false;
    }
    var stored;
    saved, stored := CriarAssinaturasComParcelas(store, submission.value);
    accepted := true;
  }

  /** A count that `Number` reads as `NaN` or 0 issues exactly one request, installment 1. */
  lemma ZeroOrNaNCountIsOne(form: Form, uid: string, parseFloat: string -> JsNumber, toNumber: string -> JsNumber)
    requires Validate(form, uid, parseFloat, toNumber).Success?
    requires toNumber(form.quantidadeParcelas).NaN? || toNumber(form.quantidadeParcelas) == Num(0.0)
    ensures var batch := Expansion(Validate(form, uid, parseFloat, toNumber).value);
            |batch| == 1 && batch[0].parcelaAtual == 1 && batch[0].quantidadeParcelas == 1.0
  {
    assert Validate(form, uid, parseFloat, toNumber).value.quantidadeParcelas == 1.0;
  }

  /** A whole count `K >= 1` gives exactly `K` requests, numbered 1 to `K`. */
  lemma ExpansionOfWholeCount(s: Submission, k: nat)
    requires k >= 1 && s.quantidadeParcelas == k as real
    ensures |Expansion(s)| == k
    ensures forall i | 0 <= i < k :: Expansion(s)[i].parcelaAtual == i + 1 <= k
  {
    assert (k as real).Floor == k;
  }

  /**
   * Installment numbers run from 1 and stay below the count plus one; a
   * fractional count gives a last installment numbered above it.
   */
  lemma ExpansionIndexBounds(s: Submission, i: nat)
    requires i < |Expansion(s)|
    ensures 1 <= Expansion(s)[i].parcelaAtual
    ensures (Expansion(s)[i].parcelaAtual as real) < s.quantidadeParcelas + 1.0
  {
    IterationsExact(s.quantidadeParcelas, i);
  }

  /**
   * Request `i` is due on the entered date moved `i` months on, at
   * midnight, by `setMonth`'s rule; an unreadable date makes every
   * request's date invalid.
   */
  lemma ExpansionDueDates(s: Submission, i: nat)
    requires i < |Expansion(s)|
    ensures ParseDateInput(s.data).Some? ==>
      Expansion(s)[i].data == At(Instant(AddMonths(ParseDateInput(s.data).value, i), 0))
    ensures ParseDateInput(s.data).None? ==> Expansion(s)[i].data == InvalidDate
  {
  }

  /** The first-installment field of the form is accepted but does not affect the requests. */
  lemma ExpansionIgnoresParcelaAtual(s: Submission, p: real)
    ensures Expansion(s.(parcelaAtual := p)) == Expansion(s)
  {
    var t := s.(parcelaAtual := p);
    assert |Expansion(t)| == |Expansion(s)|;
    forall i | 0 <= i < |Expansion(s)| ensures Expansion(t)[i] == Expansion(s)[i] {
    }
  }

  /**
   * A day of month the calendar has in every month keeps its day, each
   * request one month after the one before it.
   */
  lemma ExpansionMonthlySteps(s: Submission, i: nat)
    requires ParseDateInput(s.data).Some? && ParseDateInput(s.data).value.day <= 28
    requires i + 1 < |Expansion(s)|
    ensures var a, b := Expansion(s)[i].data.instant.date, Expansion(s)[i + 1].data.instant.date;
            b.day == a.day && MonthOrdinal(b.year, b.month) == MonthOrdinal(a.year, a.month) + 1
  {
    var d := ParseDateInput(s.data).value;
    AddMonthsKeepsEarlyDay(d, i);
    AddMonthsKeepsEarlyDay(d, i + 1);
  }

  lemma ParseDateInputExample()
    ensures ParseDateInput("2025-01-15") == Some(Date(2025, 1, 15))
  {
    var s := "2025-01-15";
    assert s[..4] == "2025" && s[5..7] == "01" && s[8..] == "15";
    ExampleFields();
  }

  /** The fields of `"2025-01-15"` read as 2025, 1 and 15. */
  lemma ExampleFields()
    ensures AllDigits("2025") && ParseNat("2025") == 2025
    ensures AllDigits("01") && ParseNat("01") == 1
    ensures AllDigits("15") && ParseNat("15") == 15
  {
    ExampleSpellings();
    ParseNatToString(2025);
    ParseNatToString(15);
    ParseNatToString(1);
    ParseNatLeadingZero("1");
    assert "0" + "1" == "01";
  }

  lemma ExampleSpellings()
    ensures NatToString(2025) == "2025" && NatToString(15) == "15" && NatToString(1) == "1"
  {
  }

  /** The "Netflix, 3 installments from 2025-01-15" scenario. */
  lemma NetflixExample(parseFloat: string -> JsNumber, toNumber: string -> JsNumber)
    requires toNumber("3") == Num(3.0)
    ensures var r := Validate(Form("Netflix", "39.90", "2025-01-15", "1", "3"), "u1", parseFloat, toNumber);
            r.Success? && |Expansion(r.value)| == 3
            && Expansion(r.value)[0].data == At(Instant(Date(2025, 1, 15), 0))
            && Expansion(r.value)[1].data == At(Instant(Date(2025, 2, 15), 0))
            && Expansion(r.value)[2].data == At(Instant(Date(2025, 3, 15), 0))
            && Expansion(r.value)[0].parcelaAtual == 1
            && Expansion(r.value)[1].parcelaAtual == 2
            && Expansion(r.value)[2].parcelaAtual == 3
  {
    var r := Validate(Form("Netflix", "39.90", "2025-01-15", "1", "3"), "u1", parseFloat, toNumber);
    assert r.Success? && r.value.data == "2025-01-15" && r.value.quantidadeParcelas == 3.0;
    ThreeFromJanuary15(r.value);
  }

  /** Three installments from 15 January 2025 fall due on the 15th of January, February and March. */
  lemma ThreeFromJanuary15(s: Submission)
    requires s.data == "2025-01-15" && s.quantidadeParcelas == 3.0
    ensures |Expansion(s)| == 3
    ensures Expansion(s)[0].data == At(Instant(Date(2025, 1, 15), 0))
    ensures Expansion(s)[1].data == At(Instant(Date(2025, 2, 15), 0))
    ensures Expansion(s)[2].data == At(Instant(Date(2025, 3, 15), 0))
    ensures Expansion(s)[0].parcelaAtual == 1 && Expansion(s)[1].parcelaAtual == 2 && Expansion(s)[2].parcelaAtual == 3
  {
    ParseDateInputExample();
    ExpansionOfThree(s, Date(2025, 1, 15));
    JanuaryShifts();
  }

  /** Three installments: the entered date, and one and two months on. */
  lemma ExpansionOfThree(s: Submission, d: Date)
    requires ParseDateInput(s.data) == Some(d) && s.quantidadeParcelas == 3.0
    ensures |Expansion(s)| == 3
    ensures Expansion(s)[0].data == At(Instant(AddMonths(d, 0), 0))
    ensures Expansion(s)[1].data == At(Instant(AddMonths(d, 1), 0))
    ensures Expansion(s)[2].data == At(Instant(AddMonths(d, 2), 0))
    ensures Expansion(s)[0].parcelaAtual == 1 && Expansion(s)[1].parcelaAtual == 2 && Expansion(s)[2].parcelaAtual == 3
  {
    ExpansionOfWholeCount(s, 3);
    ExpansionDueDates(s, 0);
    ExpansionDueDates(s, 1);
    ExpansionDueDates(s, 2);
  }

  lemma JanuaryShifts()
    ensures AddMonths(Date(2025, 1, 15), 0) == Date(2025, 1, 15)
    ensures AddMonths(Date(2025, 1, 15), 1) == Date(2025, 2, 15)
    ensures AddMonths(Date(2025, 1, 15), 2) == Date(2025, 3, 15)
  {
  }
}
