/** The application database: the tariffs, payments, vouchers and user_sessions
    tables, held in memory. Rows of the sequence tables are kept in insertion
    order, which is the order `->first()` sees them in. */
module Persistence {
  import opened Common
  import opened Models

  /** Payment ids increase along the table and no two rows share a
      `transaction_id` (the unique index). */
  predicate IdsIncreasing(payments: seq<Payment>) {
    forall i, j :: 0 <= i < j < |payments| ==>
      payments[i].id < payments[j].id && payments[i].transactionId != payments[j].transactionId
  }

  /** A snapshot of the four tables and the next auto-increment ids. */
  datatype Tables = Tables(
    tariffs: map<nat, Tariff>,
    nextTariffId: nat,
    payments: seq<Payment>,
    nextPaymentId: nat,
    vouchers: seq<Voucher>,
    sessions: seq<UserSession>)
  {
    /** The database's own guarantees: tariff rows are keyed by their id, ids
        come from the counters, payment ids increase, `transaction_id` is unique,
        and every payment's tariff exists (the foreign key cascades on delete). */
    predicate Valid() {
      && (forall id :: id in tariffs ==> tariffs[id].id == id && id < nextTariffId)
      && (forall i :: 0 <= i < |payments| ==>
            payments[i].tariffId in tariffs && payments[i].id < nextPaymentId)
      && IdsIncreasing(payments)
    }
  }

  /** A freshly migrated database. */
  function EmptyTables(): (t: Tables)
    ensures t.Valid()
  {
    Tables(map[], 1, [], 1, [], [])
  }

  /** The database as an object whose tables the controllers update in place. */
  class Database {
    var tariffs: map<nat, Tariff>
    var nextTariffId: nat
    var payments: seq<Payment>
    var nextPaymentId: nat
    var vouchers: seq<Voucher>
    var sessions: seq<UserSession>

    constructor ()
      ensures Snapshot() == EmptyTables()
    {
      tariffs, nextTariffId := map[], 1;
      payments, nextPaymentId := [], 1;
      vouchers, sessions := [], [];
    }

    function Snapshot(): Tables
      reads this
    {
      Tables(tariffs, nextTariffId, payments, nextPaymentId, vouchers, sessions)
    }
  }
}
