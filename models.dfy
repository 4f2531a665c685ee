/** The rows of the four tables (app/Models) and the voucher issuance rule that
    both the payment callback and bulk generation apply. Times are integer
    seconds; tariff prices are integer cents, payment amounts whole shillings. */
module Models {
  import opened Common

  /** A purchasable access plan. Every stored tariff passed the validation of
      TariffAdmin, so the numeric columns are non-negative. */
  datatype Tariff = Tariff(
    id: nat,
    name: string,
    priceCents: nat,
    durationMinutes: Option<nat>,
    dataLimitBytes: Option<nat>,
    downloadKbps: nat,
    uploadKbps: nat)

  /** `used` starts false; `expiresAt` is nullable and compared with the clock
      at redemption time. */
  datatype Voucher = Voucher(
    code: string,
    tariffId: nat,
    paymentId: Option<nat>,
    expiresAt: Option<int>,
    used: bool)

  datatype PaymentStatus = Pending | Paid | Failed

  /** `amount` is in whole shillings; `transactionId` is unique in the table;
      `status` defaults to pending. */
  datatype Payment = Payment(
    id: nat,
    amount: int,
    phone: string,
    gateway: string,
    transactionId: string,
    mpesaReceipt: Option<string>,
    status: PaymentStatus,
    tariffId: nat)

  /** `endedAt` is nullable; the byte counters default to 0. */
  datatype UserSession = UserSession(
    voucherCode: string,
    macAddress: string,
    ipAddress: string,
    startedAt: int,
    endedAt: Option<int>,
    bytesIn: int,
    bytesOut: int)

  /** Thirty days, the validity of a voucher whose tariff has no duration. */
  const DefaultValiditySeconds: int := 30 * 24 * 60 * 60

  /** The expiry of a voucher issued at `now`: `now + duration` minutes when the
      tariff's duration is set (PHP truthiness), otherwise `now + 30` days. */
  function ExpiryFor(t: Tariff, now: int): (expires: int)
    ensures expires > now
    ensures IsSet(t.durationMinutes) ==> expires == now + 60 * t.durationMinutes.value
    ensures !IsSet(t.durationMinutes) ==> expires == now + DefaultValiditySeconds
  {
    if IsSet(t.durationMinutes) then now + 60 * t.durationMinutes.value
    else now + DefaultValiditySeconds
  }

  /** `Str::upper(Str::random(10))`: `random` is the ten alphanumeric characters
      the generator supplied. */
  function VoucherCode(random: string): (code: string)
    requires |random| == 10 && AllAlnum(random)
    ensures |code| == 10
    ensures forall i :: 0 <= i < |code| ==> IsUpperAlnum(code[i])
    ensures ToUpper(code) == code
  {
    ToUpper(random)
  }

  /** A voucher as either issuer creates it: unused, expiring by ExpiryFor. */
  function IssuedVoucher(random: string, t: Tariff, paymentId: Option<nat>, now: int): (v: Voucher)
    requires |random| == 10 && AllAlnum(random)
  {
    Voucher(VoucherCode(random), t.id, paymentId, Some(ExpiryFor(t, now)), false)
  }

  /** `expires_at->isPast()`: set and strictly before the clock. */
  predicate IsExpired(v: Voucher, now: int) {
    v.expiresAt.Some? && v.expiresAt.value < now
  }

  /** A voucher is not expired when issued, and stays so exactly until its
      expiry instant has passed. */
  lemma IssuedVoucherLifetime(random: string, t: Tariff, paymentId: Option<nat>, now: int, later: int)
    requires |random| == 10 && AllAlnum(random)
    ensures !IsExpired(IssuedVoucher(random, t, paymentId, now), now)
    ensures IsExpired(IssuedVoucher(random, t, paymentId, now), later) <==> later > ExpiryFor(t, now)
  {
  }
}
