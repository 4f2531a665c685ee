/** Voucher redemption at the captive portal
    (app/Http/Controllers/Hotspot/AuthController.php, `login`): find an unused
    voucher by upper-cased code, reject it if expired, mark it used, ask the
    router to log the client in, and undo the mark if the router refuses. */
module HotspotAuth {
  import opened Common
  import opened Models
  import opened Persistence
  import opened MikroTik

  /** What the portal answers. */
  datatype LoginOutcome =
    | CodeRequired        // the `required|string` rule on `code` failed
    | InvalidOrUsed       // "Invalid or already used voucher code."
    | VoucherExpired      // "This voucher has expired."
    | RouterLoginFailed   // "Login failed. Please try again or contact support."
    | Connected           // redirect with "Connected successfully!"
    | ServerError         // a null `mac` reaches the router client's `string` parameter: HTTP 500

  /** The effect of one login request: the new tables, the router login that
      was attempted (if any), the voucher row consumed (if any), the answer. */
  datatype Redemption = Redemption(
    tables: Tables,
    attempt: Option<LoginRequest>,
    consumed: Option<nat>,
    outcome: LoginOutcome)

  /** `Voucher::where('code', $code)->where('used', false)->first()`. */
  function UnusedWithCode(vouchers: seq<Voucher>, code: string): Option<nat> {
    FirstWhere(vouchers, (v: Voucher) => v.code == code && !v.used)
  }

  /** `$request->input('mac', default)` for a request whose `mac` is not
      null: the default when the key is absent. */
  function MacOr(mac: Key<string>, default: string): string {
    mac.Input(default).GetOr(default)
  }

  /** The session row a successful login inserts. */
  function NewSession(code: string, mac: Key<string>, ip: string, now: int): UserSession {
    UserSession(code, MacOr(mac, "unknown"), ip, now, None, 0, 0)
  }

  /** One login request, from the request's `code`, `mac` and client address,
      the clock, and whether the router accepts the login. A `mac` sent as
      null passes the controller but not the router client, whose parameter
      is a non-nullable string: the request fails after the voucher has been
      marked used, and nothing undoes the mark. */
  function Redeem(db: Tables, code: Option<string>, mac: Key<string>, ip: string, now: int, routerOk: bool)
    : (r: Redemption)
    // Every refusal, the rollback included, leaves the tables as they were.
    ensures r.outcome != Connected && r.outcome != ServerError ==> r.tables == db && r.consumed.None?
    ensures r.outcome == CodeRequired <==> code.None? || Blank(code.value)
    // Only unused vouchers are looked at: a used one is "invalid or already
    // used" whether or not it has also expired.
    ensures r.outcome == InvalidOrUsed <==>
              code.Some? && !Blank(code.value)
              && forall j :: 0 <= j < |db.vouchers| && db.vouchers[j].code == ToUpper(code.value) ==> db.vouchers[j].used
    ensures r.outcome == VoucherExpired <==>
              code.Some? && !Blank(code.value)
              && UnusedWithCode(db.vouchers, ToUpper(code.value)).Some?
              && IsExpired(db.vouchers[UnusedWithCode(db.vouchers, ToUpper(code.value)).value], now)
    // A null `mac` burns an unused, unexpired voucher without a session.
    ensures r.outcome == ServerError <==>
              code.Some? && !Blank(code.value)
              && UnusedWithCode(db.vouchers, ToUpper(code.value)).Some?
              && !IsExpired(db.vouchers[UnusedWithCode(db.vouchers, ToUpper(code.value)).value], now)
              && mac == Present(None)
    ensures r.outcome == ServerError ==>
              && r.consumed == UnusedWithCode(db.vouchers, ToUpper(code.value))
              && r.consumed.Some?
              && r.attempt.None?
              && var i := r.consumed.value;
              && r.tables == db.(vouchers := db.vouchers[i := db.vouchers[i].(used := true)])
    // The router is asked only about an unused, unexpired voucher, with the
    // code as both user name and password.
    ensures r.attempt.Some? <==> r.outcome == RouterLoginFailed || r.outcome == Connected
    ensures r.attempt.Some? ==>
              r.attempt.value == LoginRequestFor(ToUpper(code.value), ToUpper(code.value), MacOr(mac, ""))
    ensures r.attempt.Some? ==> (r.outcome == Connected <==> routerOk)
    // Success consumes exactly that voucher and adds exactly one session row.
    ensures r.outcome == Connected ==>
              && r.consumed == UnusedWithCode(db.vouchers, ToUpper(code.value))
              && r.consumed.Some?
              && var i := r.consumed.value;
              && !db.vouchers[i].used && !IsExpired(db.vouchers[i], now)
              && r.tables == db.(vouchers := db.vouchers[i := db.vouchers[i].(used := true)],
                                 sessions := db.sessions + [NewSession(ToUpper(code.value), mac, ip, now)])
    // No voucher ever goes back from used to unused.
    ensures |r.tables.vouchers| == |db.vouchers|
    ensures forall j :: 0 <= j < |db.vouchers| && db.vouchers[j].used ==> r.tables.vouchers[j].used
    ensures r.consumed.Some? ==> r.consumed.value < |db.vouchers| && r.tables.vouchers[r.consumed.value].used
  {
    if code.None? || Blank(code.value) then Redemption(db, None, None, CodeRequired)
    else
      match UnusedWithCode(db.vouchers, ToUpper(code.value))
      case None => Redemption(db, None, None, InvalidOrUsed)
      case Some(i) =>
        var v := db.vouchers[i];
        if IsExpired(v, now) then Redemption(db, None, None, VoucherExpired)
        else if mac == Present(None) then
          Redemption(db.(vouchers := db.vouchers[i := v.(used := true)]), None, Some(i), ServerError)
        else
          var request := LoginRequestFor(v.code, v.code, MacOr(mac, ""));
          if !routerOk then Redemption(db, Some(request), None, RouterLoginFailed)
          else
            Redemption(
              db.(vouchers := db.vouchers[i := v.(used := true)],
                  sessions := db.sessions + [NewSession(v.code, mac, ip, now)]),
              Some(request), Some(i), Connected)
  }

  /** After a router refusal the same code can be redeemed again at once. */
  lemma RetryAfterRollback(db: Tables, code: Option<string>, mac: Key<string>, ip: string, now: int)
    requires Redeem(db, code, mac, ip, now, false).outcome == RouterLoginFailed
    ensures Redeem(Redeem(db, code, mac, ip, now, false).tables, code, mac, ip, now, true).outcome == Connected
  {
  }

  /** After a null `mac` the voucher stays used: no session was opened, the
      router was never asked, and asking again with the same code does not
      find that voucher; when it was the only unused one with that code, the
      code is now "invalid or already used". */
  lemma NullMacBurnsVoucher(db: Tables, code: Option<string>, ip: string, now: int, routerOk: bool,
                            retry: Attempt)
    requires Redeem(db, code, Present(None), ip, now, routerOk).outcome == ServerError
    ensures var r := Redeem(db, code, Present(None), ip, now, routerOk);
            var again := Redeem(r.tables, code, retry.mac, retry.ip, retry.now, retry.routerOk);
            && r.tables.sessions == db.sessions
            && r.attempt.None?
            && again.consumed != r.consumed
            && ((forall j :: 0 <= j < |db.vouchers| && j != r.consumed.value && db.vouchers[j].code == ToUpper(code.value)
                   ==> db.vouchers[j].used)
                ==> again.outcome == InvalidOrUsed)
  {
    var r := Redeem(db, code, Present(None), ip, now, routerOk);
    var i := r.consumed.value;
    assert r.tables.vouchers[i].used;
  }

  /** One request of a sequential run of login requests. */
  datatype Attempt = Attempt(code: Option<string>, mac: Key<string>, ip: string, now: int, routerOk: bool)

  /** The redemptions of a run of requests, each on the tables the previous one left. */
  function Run(db: Tables, attempts: seq<Attempt>): (trace: seq<Redemption>)
    ensures |trace| == |attempts|
    ensures |attempts| > 0 ==>
              trace[0] == Redeem(db, attempts[0].code, attempts[0].mac, attempts[0].ip, attempts[0].now, attempts[0].routerOk)
    ensures forall k :: 0 < k < |attempts| ==>
              trace[k] == Redeem(trace[k - 1].tables, attempts[k].code, attempts[k].mac, attempts[k].ip,
                                 attempts[k].now, attempts[k].routerOk)
    decreases |attempts|
  {
    if attempts == [] then []
    else
      var a := attempts[0];
      var r := Redeem(db, a.code, a.mac, a.ip, a.now, a.routerOk);
      [r] + Run(r.tables, attempts[1..])
  }

  /** A voucher that is already used is never consumed by any later request. */
  lemma {:induction false} UsedNeverConsumed(db: Tables, attempts: seq<Attempt>, i: nat, k: nat)
    requires i < |db.vouchers| && db.vouchers[i].used
    requires k < |attempts|
    ensures Run(db, attempts)[k].consumed != Some(i)
    decreases |attempts|
  {
    var a := attempts[0];
    var r := Redeem(db, a.code, a.mac, a.ip, a.now, a.routerOk);
    if k > 0 {
      UsedNeverConsumed(r.tables, attempts[1..], i, k - 1);
      assert Run(db, attempts)[k] == Run(r.tables, attempts[1..])[k - 1];
    }
  }

  /** In a sequential run, each voucher row is consumed by at most one request:
      two different requests that both succeed consumed different rows. */
  lemma {:induction false} EachVoucherConsumedAtMostOnce(db: Tables, attempts: seq<Attempt>, j: nat, k: nat)
    requires j < k < |attempts|
    ensures Run(db, attempts)[j].consumed.Some? ==> Run(db, attempts)[k].consumed != Run(db, attempts)[j].consumed
    decreases |attempts|
  {
    var a := attempts[0];
    var r := Redeem(db, a.code, a.mac, a.ip, a.now, a.routerOk);
    assert Run(db, attempts)[k] == Run(r.tables, attempts[1..])[k - 1];
    if j == 0 {
      if r.consumed.Some? {
        UsedNeverConsumed(r.tables, attempts[1..], r.consumed.value, k - 1);
      }
    } else {
      EachVoucherConsumedAtMostOnce(r.tables, attempts[1..], j - 1, k - 1);
      assert Run(db, attempts)[j] == Run(r.tables, attempts[1..])[j - 1];
    }
  }

  /** The controller action: the voucher is marked used before the router is
      asked, and the mark is undone if the router refuses (but not when the
      call fails on a null `mac`). */
  method Login(db: Database, mikrotik: MikroTikService, code: Option<string>, mac: Key<string>,
               ip: string, now: int, routerOk: bool)
    returns (outcome: LoginOutcome)
    modifies db, mikrotik`logins
    ensures db.Snapshot() == Redeem(old(db.Snapshot()), code, mac, ip, now, routerOk).tables
    ensures outcome == Redeem(old(db.Snapshot()), code, mac, ip, now, routerOk).outcome
    ensures mikrotik.logins ==
              old(mikrotik.logins)
              + (var r := Redeem(old(db.Snapshot()), code, mac, ip, now, routerOk);
                 if r.outcome == Connected then [r.attempt.value] else [])
  {
    if code.None? || Blank(code.value) {
      return CodeRequired;
    }
    var found := UnusedWithCode(db.vouchers, ToUpper(code.value));
    if found.None? {
      return InvalidOrUsed;
    }
    var i := found.value;
    var voucher := db.vouchers[i];
    if IsExpired(voucher, now) {
      return VoucherExpired;
    }
    db.vouchers := db.vouchers[i := voucher.(used := true)];
    assert db.vouchers[i].used;
    if mac == Present(None) {
      return ServerError;
    }
    var ok := mikrotik.LoginUser(voucher.code, voucher.code, MacOr(mac, ""), routerOk);
    if !ok {
      db.vouchers := db.vouchers[i := db.vouchers[i].(used := false)];
      return RouterLoginFailed;
    }
    db.sessions := db.sessions + [NewSession(voucher.code, mac, ip, now)];
    return Connected;
  }
}
