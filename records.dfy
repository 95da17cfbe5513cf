/** The subscription record as the store hands it back to the dashboard. */
module Records {
  import opened Calendar

  /**
   * A JavaScript number as the form code can meet it: `NaN` or a finite
   * value (infinities and the sign of zero are not modelled).
   */
  datatype JsNumber = NaN | Num(value: real)

  /**
   * The `data` field of a stored record after `item.data?.toDate?.()`:
   * absent or not a timestamp, a timestamp whose date is invalid, or an
   * instant.
   */
  datatype DueField = Missing | InvalidDate | At(instant: Instant)

  /** One installment: `{ id, ...doc.data() }` of a stored document. */
  datatype Subscription = Subscription(
    id: string,
    uid: string,
    nome: string,
    valor: real,
    data: DueField,
    paga: bool,
    parcelaAtual: int,
    quantidadeParcelas: real,
    pagos: map<string, bool>)
}
