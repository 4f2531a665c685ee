/** M-Pesa payment settlement (app/Http/Controllers/PaymentController.php):
    starting an STK push, the gateway's callback that settles a payment and
    issues its voucher, and the status poll. The gateway's answers are inputs. */
module Payments {
  import opened Common
  import opened Models
  import opened Persistence
  import opened MikroTik

  // ---------------------------------------------------------------------------
  // initiate
  // ---------------------------------------------------------------------------

  /** Twelve characters: `254`, then `1` or `7`, then eight ASCII digits. */
  predicate PhoneDigits(s: string) {
    && |s| == 12
    && s[0] == '2' && s[1] == '5' && s[2] == '4'
    && (s[3] == '1' || s[3] == '7')
    && forall i :: 4 <= i < 12 ==> IsDigit(s[i])
  }

  /** The `regex:/^254[17]\d{8}$/` rule. Without the `D` modifier PCRE's `$`
      also matches just before a final newline. */
  predicate PhoneMatches(s: string) {
    PhoneDigits(s) || (|s| == 13 && s[12] == '\n' && PhoneDigits(s[..12]))
  }

  /** The accepted phone numbers are exactly `254`, a `1` or `7`, and eight
      digits, possibly followed by one newline. */
  lemma PhoneMatchesExactly(s: string)
    ensures PhoneMatches(s) <==>
              exists c: char, d: string ::
                && (c == '1' || c == '7') && |d| == 8 && AllDigits(d)
                && (s == "254" + [c] + d || s == "254" + [c] + d + "\n")
  {
    if PhoneMatches(s) {
      var body := if |s| == 12 then s else s[..12];
      assert PhoneDigits(body);
      var c, d := body[3], body[4..];
      assert body == "254" + [c] + d;
      assert s == "254" + [c] + d || s == "254" + [c] + d + "\n";
    }
    if exists c: char, d: string :: && (c == '1' || c == '7') && |d| == 8 && AllDigits(d)
                                      && (s == "254" + [c] + d || s == "254" + [c] + d + "\n") {
      var c: char, d: string :| && (c == '1' || c == '7') && |d| == 8 && AllDigits(d)
                                 && (s == "254" + [c] + d || s == "254" + [c] + d + "\n");
      var body := "254" + [c] + d;
      assert PhoneDigits(body);
      if s != body {
        assert s[..12] == body;
      }
    }
  }

  /** `(int) $tariff->price`: the price truncated to whole shillings. */
  function AmountFor(priceCents: nat): (amount: nat)
    ensures 100 * amount <= priceCents < 100 * (amount + 1)
  {
    priceCents / 100
  }

  /** What the STK push call returned. */
  datatype StkReply =
    | Accepted(checkoutId: Option<string>)       // successful response; `CheckoutRequestID` may be missing
    | Declined(errorMessage: Option<string>)     // unsuccessful response
    | Unreachable                                // the call threw

  /** What `initiate` answers. */
  datatype InitiateReply =
    | InvalidRequest               // validation failed
    | PushSent(checkoutId: string) // 200, `success: true`
    | PushDeclined(message: string)// 400
    | ServiceUnavailable           // 500: an exception inside the try block

  /** `Payment::where('transaction_id', $id)->first()`. */
  function PaymentWithTransaction(payments: seq<Payment>, checkoutId: string): Option<nat> {
    FirstWhere(payments, (p: Payment) => p.transactionId == checkoutId)
  }

  predicate HasTransaction(payments: seq<Payment>, checkoutId: string) {
    exists i :: 0 <= i < |payments| && payments[i].transactionId == checkoutId
  }

  /** The payment row a successful push creates. */
  function PendingPayment(db: Tables, phone: string, t: Tariff, checkoutId: string): Payment {
    Payment(db.nextPaymentId, AmountFor(t.priceCents), phone, "mpesa", checkoutId, None, Pending, t.id)
  }

  /** The effect of `initiate` for a request's `phone` and `tariff_id` and the
      gateway's reply. A payment row is created only for an accepted push whose
      checkout id is not yet taken (a taken one violates the unique index, and
      that exception is caught); it is pending, via mpesa, for the tariff's
      truncated price. */
  function StartPayment(db: Tables, phone: Option<string>, tariffId: Option<nat>, reply: StkReply)
    : (r: (Tables, InitiateReply))
    requires db.Valid()
    ensures r.0.Valid()
    ensures r.1 == InvalidRequest <==>
              phone.None? || !PhoneMatches(phone.value) || tariffId.None? || tariffId.value !in db.tariffs
    ensures r.1.PushSent? <==>
              r.1 != InvalidRequest && reply.Accepted? && reply.checkoutId.Some?
              && !HasTransaction(db.payments, reply.checkoutId.value)
    ensures r.1.PushSent? ==>
              && r.1.checkoutId == reply.checkoutId.value
              && r.0 == db.(payments := db.payments + [PendingPayment(db, phone.value, db.tariffs[tariffId.value], r.1.checkoutId)],
                            nextPaymentId := db.nextPaymentId + 1)
    ensures !r.1.PushSent? ==> r.0 == db
    // a declined push is a 400 with the gateway's message; every other
    // failure after validation is a 500
    ensures r.1.PushDeclined? <==> r.1 != InvalidRequest && reply.Declined?
    ensures r.1.PushDeclined? ==> r.1.message == reply.errorMessage.GetOr("Payment initiation failed")
    ensures r.1 == ServiceUnavailable <==>
              r.1 != InvalidRequest && !reply.Declined? && !r.1.PushSent?
  {
    if phone.None? || !PhoneMatches(phone.value) || tariffId.None? || tariffId.value !in db.tariffs then
      (db, InvalidRequest)
    else
      var t := db.tariffs[tariffId.value];
      match reply
      case Unreachable => (db, ServiceUnavailable)
      case Declined(message) => (db, PushDeclined(message.GetOr("Payment initiation failed")))
      case Accepted(checkoutId) =>
        if checkoutId.None? || HasTransaction(db.payments, checkoutId.value) then (db, ServiceUnavailable)
        else
          var p := PendingPayment(db, phone.value, t, checkoutId.value);
          (db.(payments := db.payments + [p], nextPaymentId := db.nextPaymentId + 1), PushSent(checkoutId.value))
  }

  // ---------------------------------------------------------------------------
  // callback
  // ---------------------------------------------------------------------------

  datatype MetadataItem = MetadataItem(name: Option<string>, value: Option<string>)

  /** `Body.stkCallback` of the gateway's request, when PHP treats it as true:
      a missing, null or otherwise falsy one (`{}`, `[]`, `""`, `0`, `"0"`) is
      `None` where a callback is expected. Each of `CheckoutRequestID` and
      `ResultCode` is either absent or present; a present `ResultCode` that is
      null or not an integer is carried as `Present(None)`. Keys the handler
      does not read are not modelled, so a non-empty object lacking both keys
      is `StkCallback(Missing, Missing, …)`. */
  datatype StkCallback = StkCallback(
    checkoutId: Key<string>,
    resultCode: Key<int>,
    metadata: seq<MetadataItem>)

  /** `{"status": "ok"}` when there was nothing to settle, `{"status": "success"}`
      after settling, and a server error when the handler reads a key the body
      does not have (PHP raises on an undefined array key, Laravel answers 500). */
  datatype CallbackReply = Acknowledged | Processed | ServerError

  /** The `Value` of the first metadata item named `MpesaReceiptNumber`, or null. */
  function ReceiptOf(items: seq<MetadataItem>): (receipt: Option<string>)
    ensures forall i ::
              (0 <= i < |items| && items[i].name == Some("MpesaReceiptNumber") &&
               forall j :: 0 <= j < i ==> items[j].name != Some("MpesaReceiptNumber")) ==>
                receipt == items[i].value
    ensures receipt.Some? ==>
              exists i :: 0 <= i < |items| && items[i].name == Some("MpesaReceiptNumber") && items[i].value == receipt
                && forall j :: 0 <= j < i ==> items[j].name != Some("MpesaReceiptNumber")
    ensures (forall i :: 0 <= i < |items| ==> items[i].name != Some("MpesaReceiptNumber")) ==> receipt.None?
  {
    match FirstWhere(items, (it: MetadataItem) => it.name == Some("MpesaReceiptNumber"))
    case None => None
    case Some(i) => items[i].value
  }

  /** The checkout id of a callback, when it is a string. */
  function CheckoutIdOf(body: StkCallback): Option<string> {
    match body.checkoutId
    case Present(Some(id)) => Some(id)
    case _ => None
  }

  /** The payment a callback is about. A null checkout id matches no row, since
      every recorded payment carries the id the gateway returned. */
  function SettledPayment(db: Tables, body: StkCallback): Option<nat> {
    match CheckoutIdOf(body)
    case None => None
    case Some(id) => PaymentWithTransaction(db.payments, id)
  }

  /** Whether the callback reports success: `ResultCode` is the integer 0. */
  predicate Succeeded(body: StkCallback) {
    body.resultCode == Present(Some(0))
  }

  /** The effect of one callback: the new tables, the voucher issued (if any)
      and the reply. */
  datatype Settlement = Settlement(tables: Tables, issued: Option<Voucher>, reply: CallbackReply)

  /** `callback`: with no (or a falsy) body or an unknown checkout id nothing changes, and
      a body without `CheckoutRequestID`, or a found payment whose callback
      lacks `ResultCode`, fails with nothing written. Otherwise a `ResultCode`
      of 0 marks the payment paid with its receipt and issues one voucher for
      it; any other code marks it failed. The payment's current status is not
      consulted. */
  function Settle(db: Tables, body: Option<StkCallback>, random: string, now: int): (r: Settlement)
    requires db.Valid()
    requires |random| == 10 && AllAlnum(random)
    ensures r.tables.Valid()
    ensures r.reply == Acknowledged <==>
              body.None? || (body.value.checkoutId.Present? && SettledPayment(db, body.value).None?)
    ensures r.reply == ServerError <==>
              body.Some? && (body.value.checkoutId.Missing? ||
                             (SettledPayment(db, body.value).Some? && body.value.resultCode.Missing?))
    ensures r.reply != Processed ==> r.tables == db && r.issued.None?
    ensures r.tables.tariffs == db.tariffs && r.tables.sessions == db.sessions
    ensures r.tables.nextTariffId == db.nextTariffId && r.tables.nextPaymentId == db.nextPaymentId
    ensures r.reply == Processed ==>
              var i := SettledPayment(db, body.value).value;
              var p := db.payments[i];
              && (Succeeded(body.value) ==>
                    && r.tables.payments == db.payments[i := p.(status := Paid, mpesaReceipt := ReceiptOf(body.value.metadata))]
                    && r.issued.Some?
                    && r.tables.vouchers == db.vouchers + [r.issued.value]
                    && r.issued.value.paymentId == Some(p.id)
                    && r.issued.value.tariffId == p.tariffId
                    && r.issued.value.expiresAt == Some(ExpiryFor(db.tariffs[p.tariffId], now))
                    && !r.issued.value.used
                    && r.issued.value.code == VoucherCode(random))
              && (!Succeeded(body.value) ==>
                    && r.tables.payments == db.payments[i := p.(status := Failed)]
                    && r.issued.None?
                    && r.tables.vouchers == db.vouchers)
    ensures r.issued.Some? ==> r.issued.value.tariffId in db.tariffs
  {
    if body.None? then Settlement(db, None, Acknowledged)
    else if body.value.checkoutId.Missing? then Settlement(db, None, ServerError)
    else
      match SettledPayment(db, body.value)
      case None => Settlement(db, None, Acknowledged)
      case Some(i) =>
        var p := db.payments[i];
        if body.value.resultCode.Missing? then Settlement(db, None, ServerError)
        else if Succeeded(body.value) then
          var t := db.tariffs[p.tariffId];
          var v := IssuedVoucher(random, t, Some(p.id), now);
          Settlement(
            db.(payments := db.payments[i := p.(status := Paid, mpesaReceipt := ReceiptOf(body.value.metadata))],
                vouchers := db.vouchers + [v]),
            Some(v), Processed)
        else
          Settlement(db.(payments := db.payments[i := p.(status := Failed)]), None, Processed)
  }

  /** Where a checkout id is found depends only on the transaction ids. */
  lemma TransactionLookupIgnoresOtherFields(a: seq<Payment>, b: seq<Payment>, checkoutId: string)
    requires |a| == |b|
    requires forall j :: 0 <= j < |a| ==> a[j].transactionId == b[j].transactionId
    ensures PaymentWithTransaction(a, checkoutId) == PaymentWithTransaction(b, checkoutId)
  {
    var ra, rb := PaymentWithTransaction(a, checkoutId), PaymentWithTransaction(b, checkoutId);
    if ra.Some? {
      assert b[ra.value].transactionId == checkoutId;
    }
  }

  /** Rewriting a payment row's other columns keeps the table invariants. */
  lemma RowUpdateKeepsValid(db: Tables, i: nat, q: Payment)
    requires db.Valid() && i < |db.payments|
    requires q.id == db.payments[i].id && q.transactionId == db.payments[i].transactionId
    requires q.tariffId == db.payments[i].tariffId
    ensures db.(payments := db.payments[i := q]).Valid()
  {
    var ps := db.payments[i := q];
    assert forall j :: 0 <= j < |ps| ==> ps[j].id == db.payments[j].id && ps[j].transactionId == db.payments[j].transactionId
                                         && ps[j].tariffId == db.payments[j].tariffId;
  }

  /** The callback does not look at the payment's current status: a pending, a
      paid and a failed payment are settled alike, so a failed payment can
      become paid and a paid one failed. */
  lemma SettleIgnoresStatus(db: Tables, body: StkCallback, random: string, now: int, status: PaymentStatus)
    requires db.Valid()
    requires |random| == 10 && AllAlnum(random)
    requires SettledPayment(db, body).Some?
    ensures var i := SettledPayment(db, body).value;
            var db' := db.(payments := db.payments[i := db.payments[i].(status := status)]);
            && db'.Valid()
            && Settle(db', Some(body), random, now).reply == Settle(db, Some(body), random, now).reply
            && (body.resultCode.Present? ==> Settle(db', Some(body), random, now) == Settle(db, Some(body), random, now))
  {
    var i := SettledPayment(db, body).value;
    var p := db.payments[i];
    var db' := db.(payments := db.payments[i := p.(status := status)]);
    RowUpdateKeepsValid(db, i, p.(status := status));
    TransactionLookupIgnoresOtherFields(db.payments, db'.payments, CheckoutIdOf(body).value);
    assert SettledPayment(db', body) == Some(i);
    assert db'.payments[i] == p.(status := status);
    if body.resultCode.Present? {
      if Succeeded(body) {
        var receipt := ReceiptOf(body.metadata);
        var v := IssuedVoucher(random, db.tariffs[p.tariffId], Some(p.id), now);
        var paid := db.payments[i := p.(status := Paid, mpesaReceipt := receipt)];
        assert db'.payments[i := p.(status := Paid, mpesaReceipt := receipt)] == paid;
        assert Settle(db, Some(body), random, now) == Settlement(db.(payments := paid, vouchers := db.vouchers + [v]), Some(v), Processed);
        assert Settle(db', Some(body), random, now) == Settlement(db.(payments := paid, vouchers := db.vouchers + [v]), Some(v), Processed);
      } else {
        var failed := db.payments[i := p.(status := Failed)];
        assert db'.payments[i := p.(status := Failed)] == failed;
        assert Settle(db, Some(body), random, now) == Settlement(db.(payments := failed), None, Processed);
        assert Settle(db', Some(body), random, now) == Settlement(db.(payments := failed), None, Processed);
      }
    }
  }

  /** A successful callback delivered twice issues two vouchers for the same
      payment: the callback is not idempotent. */
  lemma DuplicateSuccessIssuesTwoVouchers(db: Tables, body: StkCallback, random1: string, random2: string, now: int)
    requires db.Valid()
    requires |random1| == 10 && AllAlnum(random1) && |random2| == 10 && AllAlnum(random2)
    requires SettledPayment(db, body).Some? && Succeeded(body)
    ensures var first := Settle(db, Some(body), random1, now);
            var second := Settle(first.tables, Some(body), random2, now);
            && |second.tables.vouchers| == |db.vouchers| + 2
            && second.tables.vouchers[|db.vouchers|].paymentId == second.tables.vouchers[|db.vouchers| + 1].paymentId
            && second.tables.vouchers[|db.vouchers|].paymentId.Some?
  {
    var first := Settle(db, Some(body), random1, now);
    TransactionLookupIgnoresOtherFields(db.payments, first.tables.payments, CheckoutIdOf(body).value);
  }

  // ---------------------------------------------------------------------------
  // status
  // ---------------------------------------------------------------------------

  /** The JSON of the status poll. */
  datatype StatusView =
    | NotFound                                                               // `not_found`, voucher null
    | Found(status: PaymentStatus, voucherCode: Option<string>, amount: int, phone: string)

  /** `Voucher::where('payment_id', $id)->first()`. */
  function VoucherOfPayment(vouchers: seq<Voucher>, paymentId: nat): Option<nat> {
    FirstWhere(vouchers, (v: Voucher) => v.paymentId == Some(paymentId))
  }

  /** `status`: a read-only projection of the payment with that checkout id; a
      voucher code is reported only for a paid payment, from the first voucher
      carrying its id. */
  function Status(db: Tables, checkoutId: string): (r: StatusView)
    ensures r.NotFound? <==> !HasTransaction(db.payments, checkoutId)
    ensures r.Found? ==>
              var p := db.payments[PaymentWithTransaction(db.payments, checkoutId).value];
              && r.status == p.status && r.amount == p.amount && r.phone == p.phone
              && (r.voucherCode.Some? <==> p.status == Paid && VoucherOfPayment(db.vouchers, p.id).Some?)
              && (r.voucherCode.Some? ==> r.voucherCode.value == db.vouchers[VoucherOfPayment(db.vouchers, p.id).value].code)
  {
    match PaymentWithTransaction(db.payments, checkoutId)
    case None => NotFound
    case Some(i) =>
      var p := db.payments[i];
      var code :=
        if p.status != Paid then None
        else match VoucherOfPayment(db.vouchers, p.id)
             case None => None
             case Some(j) => Some(db.vouchers[j].code);
      Found(p.status, code, p.amount, p.phone)
  }

  /** After the first successful callback for a payment, polling its checkout
      id reports it paid with the voucher that callback issued. */
  lemma StatusAfterFirstSuccess(db: Tables, body: StkCallback, random: string, now: int)
    requires db.Valid()
    requires |random| == 10 && AllAlnum(random)
    requires SettledPayment(db, body).Some? && Succeeded(body)
    requires VoucherOfPayment(db.vouchers, db.payments[SettledPayment(db, body).value].id).None?
    ensures var s := Settle(db, Some(body), random, now);
            var p := db.payments[SettledPayment(db, body).value];
            Status(s.tables, CheckoutIdOf(body).value) == Found(Paid, Some(VoucherCode(random)), p.amount, p.phone)
  {
    var s := Settle(db, Some(body), random, now);
    var i := SettledPayment(db, body).value;
    var p := db.payments[i];
    var v := IssuedVoucher(random, db.tariffs[p.tariffId], Some(p.id), now);
    var paid := p.(status := Paid, mpesaReceipt := ReceiptOf(body.metadata));
    assert s == Settlement(db.(payments := db.payments[i := paid], vouchers := db.vouchers + [v]), Some(v), Processed);
    TransactionLookupIgnoresOtherFields(db.payments, s.tables.payments, CheckoutIdOf(body).value);
    assert s.tables.payments[i] == paid;
    var vs := s.tables.vouchers;
    assert vs[|db.vouchers|].paymentId == Some(p.id);
    assert forall j :: 0 <= j < |db.vouchers| ==> vs[j] == db.vouchers[j];
    assert VoucherOfPayment(vs, p.id) == Some(|db.vouchers|);
  }

  // ---------------------------------------------------------------------------
  // The controller actions
  // ---------------------------------------------------------------------------

  /** `initiate`: validate, ask the gateway for an STK push, record the payment. */
  method Initiate(db: Database, phone: Option<string>, tariffId: Option<nat>, reply: StkReply)
    returns (answer: InitiateReply)
    requires db.Snapshot().Valid()
    modifies db
    ensures db.Snapshot() == StartPayment(old(db.Snapshot()), phone, tariffId, reply).0
    ensures answer == StartPayment(old(db.Snapshot()), phone, tariffId, reply).1
  {
    if phone.None? || !PhoneMatches(phone.value) || tariffId.None? || tariffId.value !in db.tariffs {
      return InvalidRequest;
    }
    var tariff := db.tariffs[tariffId.value];
    match reply {
      case Unreachable =>
        return ServiceUnavailable;
      case Declined(message) =>
        return PushDeclined(message.GetOr("Payment initiation failed"));
      case Accepted(checkoutId) =>
        if checkoutId.None? || HasTransaction(db.payments, checkoutId.value) {
          return ServiceUnavailable;
        }
        var payment := PendingPayment(db.Snapshot(), phone.value, tariff, checkoutId.value);
        db.payments := db.payments + [payment];
        db.nextPaymentId := db.nextPaymentId + 1;
        return PushSent(checkoutId.value);
    }
  }

  /** `callback`: settle the payment, issue its voucher and add the voucher's
      hotspot user to the router, whose answer is ignored. */
  method Callback(db: Database, mikrotik: MikroTikService, body: Option<StkCallback>, random: string,
                  now: int, routerOk: bool)
    returns (reply: CallbackReply)
    requires db.Snapshot().Valid()
    requires |random| == 10 && AllAlnum(random)
    modifies db, mikrotik`users
    ensures db.Snapshot() == Settle(old(db.Snapshot()), body, random, now).tables
    ensures reply == Settle(old(db.Snapshot()), body, random, now).reply
    ensures var r := Settle(old(db.Snapshot()), body, random, now);
            mikrotik.users ==
              if r.issued.Some?
              then AddUserOn(old(mikrotik.users), r.issued.value.code, old(db.tariffs)[r.issued.value.tariffId], routerOk).0
              else old(mikrotik.users)
  {
    if body.None? {
      return Acknowledged;
    }
    if body.value.checkoutId.Missing? {
      return ServerError;
    }
    var found := SettledPayment(db.Snapshot(), body.value);
    if found.None? {
      return Acknowledged;
    }
    var i := found.value;
    var payment := db.payments[i];
    if body.value.resultCode.Missing? {
      return ServerError;
    }
    if Succeeded(body.value) {
      var receipt := ReceiptOf(body.value.metadata);
      db.payments := db.payments[i := payment.(status := Paid, mpesaReceipt := receipt)];
      var tariff := db.tariffs[payment.tariffId];
      var voucher := IssuedVoucher(random, tariff, Some(payment.id), now);
      db.vouchers := db.vouchers + [voucher];
      var added := mikrotik.AddUser(voucher.code, tariff, routerOk);
    } else {
      db.payments := db.payments[i := payment.(status := Failed)];
    }
    return Processed;
  }
}
