/**
 * The status badge of one record on the active month tab: paid, overdue
 * or pending.
 */
module Status {
  import opened Calendar
  import opened MonthKeys
  import opened Records
  import opened GroupByMonth

  datatype PaymentStatus = Pago | Vencido | Pendente

  /** `item.pagos?.[anoMes] ?? false`. */
  function EstaPaga(item: Subscription, anoMes: string): (paga: bool)
    ensures anoMes !in item.pagos ==> !paga
    ensures anoMes in item.pagos ==> paga == item.pagos[anoMes]
  {
    if anoMes in item.pagos then item.pagos[anoMes] else false
  }

  /**
   * The status of `item` on the tab `mesAtivo` at time `hoje`: paid when
   * the payment map marks the tab's month, otherwise overdue when the due
   * instant is before `hoje`, otherwise pending.
   */
  method DeriveStatus(item: Subscription, mesAtivo: string, hoje: Instant) returns (statusPagamento: PaymentStatus)
    requires item.data.At?
    ensures statusPagamento == Pago <==> EstaPaga(item, ToYearMonthKey(mesAtivo))
    ensures statusPagamento == Vencido <==>
      !EstaPaga(item, ToYearMonthKey(mesAtivo)) && Before(item.data.instant, hoje)
    ensures statusPagamento == Pendente <==>
      !EstaPaga(item, ToYearMonthKey(mesAtivo)) && !Before(item.data.instant, hoje)
  {
    var anoMes := ToYearMonthKey(mesAtivo);
    var estaPaga := EstaPaga(item, anoMes);
    var dataVencimento := item.data.instant;
    statusPagamento := Pendente;
    if estaPaga {
      statusPagamento := Pago;
    } else if Before(dataVencimento, hoje) {
      statusPagamento := Vencido;
    }
  }

  /**
   * On a tab of the grouping, every listed record has a due instant (so
   * the status can be derived), and the payment flag consulted is the one
   * for the record's own due month.
   */
  lemma StatusConsultsOwnMonth(rs: seq<Subscription>, mesAtivo: string, item: Subscription)
    requires mesAtivo in Grouped(rs, KeyOf) && item in Grouped(rs, KeyOf)[mesAtivo]
    ensures item.data.At?
    ensures ToYearMonthKey(mesAtivo) == YearMonthKey(item.data.instant.date.year, item.data.instant.date.month)
  {
    GroupMembersBelong(rs, mesAtivo, item);
    ToYearMonthKeyOfMonthKey(item.data.instant.date.month, item.data.instant.date.year);
  }

  /**
   * Two different tabs of the grouping convert to two different
   * payment-map keys, so they consult different paid flags.
   */
  lemma PaymentFlagsDoNotLeak(rs: seq<Subscription>, k1: string, k2: string)
    requires k1 in Grouped(rs, KeyOf) && k2 in Grouped(rs, KeyOf) && k1 != k2
    ensures ToYearMonthKey(k2) != ToYearMonthKey(k1)
  {
    var item :| item in Grouped(rs, KeyOf)[k1] by {
      GroupsNonEmpty(rs, k1);
      assert Grouped(rs, KeyOf)[k1][0] in Grouped(rs, KeyOf)[k1];
    }
    GroupMembersBelong(rs, k1, item);
    var d1 := item.data.instant.date;
    var other :| other in Grouped(rs, KeyOf)[k2] by {
      GroupsNonEmpty(rs, k2);
      assert Grouped(rs, KeyOf)[k2][0] in Grouped(rs, KeyOf)[k2];
    }
    GroupMembersBelong(rs, k2, other);
    var d2 := other.data.instant.date;
    ToYearMonthKeyOfMonthKey(d1.month, d1.year);
    ToYearMonthKeyOfMonthKey(d2.month, d2.year);
    if ToYearMonthKey(k2) == ToYearMonthKey(k1) {
      YearMonthKeyInjective(d1.year, d1.month, d2.year, d2.month);
    }
  }
}
