/** Tariff administration (app/Http/Controllers/Admin/TariffController.php):
    the shared validation rules, creating and updating a tariff (each followed
    by a request to create the tariff's router profile), and deleting one. */
module TariffAdmin {
  import opened Common
  import opened Models
  import opened Persistence
  import opened MikroTik

  /** The submitted form; a required field is None when it is missing or
      null. The two optional fields keep apart a key that was not sent from
      one sent as null, because `validate()` returns only the keys present and
      `update` then leaves an absent column alone. The price is in cents. */
  datatype TariffForm = TariffForm(
    name: Option<string>,
    priceCents: Option<int>,
    durationMinutes: Key<int>,
    dataLimitBytes: Key<int>,
    downloadKbps: Option<int>,
    uploadKbps: Option<int>)

  /** An optional field that carries a number (neither absent nor null). */
  predicate Filled(n: Key<int>) {
    n.Present? && n.value.Some?
  }

  /** An optional integer field ruled `nullable|integer|min:1`. */
  predicate OptionalPositive(n: Key<int>) {
    Filled(n) ==> n.value.value >= 1
  }

  /** The validation rules store and update share. */
  predicate ValidForm(f: TariffForm) {
    && f.name.Some? && !Blank(f.name.value) && |f.name.value| <= 255
    && f.priceCents.Some? && f.priceCents.value >= 0
    && OptionalPositive(f.durationMinutes)
    && OptionalPositive(f.dataLimitBytes)
    && f.downloadKbps.Some? && f.downloadKbps.value >= 1
    && f.uploadKbps.Some? && f.uploadKbps.value >= 1
  }

  /** The column value of a validated optional field: null unless a number was sent. */
  function AsNat(n: Key<int>): (r: Option<nat>)
    requires OptionalPositive(n)
    ensures r.Some? <==> Filled(n)
    ensures r.Some? ==> r.value == n.value.value
  {
    match n
    case Present(Some(v)) => Some(v)
    case _ => None
  }

  /** The row a validated form produces under id `id` when it is created: an
      optional column not sent is null. */
  function TariffFrom(f: TariffForm, id: nat): (t: Tariff)
    requires ValidForm(f)
    ensures t.id == id && t.name == f.name.value && t.priceCents == f.priceCents.value
    ensures t.downloadKbps == f.downloadKbps.value && t.uploadKbps == f.uploadKbps.value
    ensures t.durationMinutes.Some? <==> Filled(f.durationMinutes)
    ensures t.durationMinutes.Some? ==> t.durationMinutes.value == f.durationMinutes.value.value
    ensures t.dataLimitBytes.Some? <==> Filled(f.dataLimitBytes)
    ensures t.dataLimitBytes.Some? ==> t.dataLimitBytes.value == f.dataLimitBytes.value.value
  {
    Tariff(id, f.name.value, f.priceCents.value, AsNat(f.durationMinutes), AsNat(f.dataLimitBytes),
           f.downloadKbps.value, f.uploadKbps.value)
  }

  /** The row `$tariff->update($validated)` leaves: every required column
      takes the submitted value, an optional column takes the submitted value
      or null, and an optional column whose key was not sent keeps its value. */
  function UpdatedTariff(t: Tariff, f: TariffForm): (u: Tariff)
    requires ValidForm(f)
    ensures u.id == t.id && u.name == f.name.value && u.priceCents == f.priceCents.value
    ensures u.downloadKbps == f.downloadKbps.value && u.uploadKbps == f.uploadKbps.value
    ensures f.durationMinutes.Missing? ==> u.durationMinutes == t.durationMinutes
    ensures f.durationMinutes.Present? ==>
              (u.durationMinutes.Some? <==> Filled(f.durationMinutes))
              && (u.durationMinutes.Some? ==> u.durationMinutes.value == f.durationMinutes.value.value)
    ensures f.dataLimitBytes.Missing? ==> u.dataLimitBytes == t.dataLimitBytes
    ensures f.dataLimitBytes.Present? ==>
              (u.dataLimitBytes.Some? <==> Filled(f.dataLimitBytes))
              && (u.dataLimitBytes.Some? ==> u.dataLimitBytes.value == f.dataLimitBytes.value.value)
  {
    var created := TariffFrom(f, t.id);
    created.(durationMinutes := if f.durationMinutes.Missing? then t.durationMinutes else created.durationMinutes,
             dataLimitBytes := if f.dataLimitBytes.Missing? then t.dataLimitBytes else created.dataLimitBytes)
  }

  /** A form that sends both optional keys replaces the row by what creating
      it from that form would store; without them the update differs from a
      fresh row exactly in keeping the old optional columns. */
  lemma UpdateWithEveryKeyReplacesRow(t: Tariff, f: TariffForm)
    requires ValidForm(f)
    ensures f.durationMinutes.Present? && f.dataLimitBytes.Present? ==> UpdatedTariff(t, f) == TariffFrom(f, t.id)
    ensures f.durationMinutes.Missing? && f.dataLimitBytes.Missing? ==>
              UpdatedTariff(t, f) == TariffFrom(f, t.id).(durationMinutes := t.durationMinutes,
                                                          dataLimitBytes := t.dataLimitBytes)
  {
  }

  /** Because a duration of 0 is rejected, a stored tariff's duration is
      truthy exactly when one was given: its vouchers expire after that many
      minutes, and its router profile carries a session timeout exactly then. */
  lemma ValidatedDuration(f: TariffForm, id: nat, now: int)
    requires ValidForm(f)
    ensures var t := TariffFrom(f, id);
            && (IsSet(t.durationMinutes) <==> Filled(f.durationMinutes))
            && (IsSet(t.dataLimitBytes) <==> Filled(f.dataLimitBytes))
            && (Filled(f.durationMinutes) ==> ExpiryFor(t, now) == now + 60 * f.durationMinutes.value.value)
            && (!Filled(f.durationMinutes) ==> ExpiryFor(t, now) == now + DefaultValiditySeconds)
            && (ProfileFor(t).sessionTimeout.Some? <==> Filled(f.durationMinutes))
  {
    ProfileParameters(TariffFrom(f, id));
  }

  /** What a tariff action answers. */
  datatype TariffReply = NotFound | InvalidForm | Saved(tariff: Tariff) | Deleted

  // ---------------------------------------------------------------------------
  // store
  // ---------------------------------------------------------------------------

  /** The effect of `store` on the database: a valid form becomes a new row
      under the next id. */
  function StoreEffect(db: Tables, f: TariffForm): (r: (Tables, TariffReply))
    requires db.Valid()
    ensures r.0.Valid()
    ensures r.1 == InvalidForm <==> !ValidForm(f)
    ensures r.1 == InvalidForm ==> r.0 == db
    ensures r.1 != InvalidForm ==>
              && r.1.Saved?
              && r.1.tariff == TariffFrom(f, db.nextTariffId)
              && db.nextTariffId !in db.tariffs
              && r.0 == db.(tariffs := db.tariffs[db.nextTariffId := r.1.tariff], nextTariffId := db.nextTariffId + 1)
  {
    if !ValidForm(f) then (db, InvalidForm)
    else
      var t := TariffFrom(f, db.nextTariffId);
      (db.(tariffs := db.tariffs[t.id := t], nextTariffId := db.nextTariffId + 1), Saved(t))
  }

  /** The controller action: insert the row, then ask the router for the
      tariff's profile; the router's answer is ignored. */
  method Store(db: Database, mikrotik: MikroTikService, f: TariffForm, routerOk: bool)
    returns (reply: TariffReply)
    requires db.Snapshot().Valid()
    modifies db`tariffs, db`nextTariffId, mikrotik`profiles
    ensures (db.Snapshot(), reply) == StoreEffect(old(db.Snapshot()), f)
    ensures mikrotik.profiles ==
              if reply.Saved? then CreateProfileOn(old(mikrotik.profiles), reply.tariff, routerOk).0
              else old(mikrotik.profiles)
  {
    if !ValidForm(f) {
      return InvalidForm;
    }
    var tariff := TariffFrom(f, db.nextTariffId);
    db.tariffs := db.tariffs[tariff.id := tariff];
    db.nextTariffId := db.nextTariffId + 1;
    var created := mikrotik.CreateProfile(tariff, routerOk);
    return Saved(tariff);
  }

  // ---------------------------------------------------------------------------
  // update
  // ---------------------------------------------------------------------------

  /** The effect of `update`: an unknown id is a 404 before validation; a valid
      form rewrites the row's columns it carries and keeps the id. */
  function UpdateEffect(db: Tables, id: nat, f: TariffForm): (r: (Tables, TariffReply))
    requires db.Valid()
    ensures r.0.Valid()
    ensures r.1 == NotFound <==> id !in db.tariffs
    ensures r.1 == InvalidForm <==> id in db.tariffs && !ValidForm(f)
    ensures r.1.Saved? <==> id in db.tariffs && ValidForm(f)
    ensures !r.1.Saved? ==> r.0 == db
    ensures r.1.Saved? ==>
              && r.1.tariff == UpdatedTariff(db.tariffs[id], f)
              && r.0 == db.(tariffs := db.tariffs[id := r.1.tariff])
              && r.0.tariffs.Keys == db.tariffs.Keys
  {
    if id !in db.tariffs then (db, NotFound)
    else if !ValidForm(f) then (db, InvalidForm)
    else
      var t := UpdatedTariff(db.tariffs[id], f);
      (db.(tariffs := db.tariffs[id := t]), Saved(t))
  }

  /** The controller action: save the row, then ask the router for the
      tariff's profile; the router's answer is ignored. */
  method Update(db: Database, mikrotik: MikroTikService, id: nat, f: TariffForm, routerOk: bool)
    returns (reply: TariffReply)
    requires db.Snapshot().Valid()
    modifies db`tariffs, mikrotik`profiles
    ensures (db.Snapshot(), reply) == UpdateEffect(old(db.Snapshot()), id, f)
    ensures mikrotik.profiles ==
              if reply.Saved? then CreateProfileOn(old(mikrotik.profiles), reply.tariff, routerOk).0
              else old(mikrotik.profiles)
  {
    if id !in db.tariffs {
      return NotFound;
    }
    if !ValidForm(f) {
      return InvalidForm;
    }
    var tariff := UpdatedTariff(db.tariffs[id], f);
    db.tariffs := db.tariffs[id := tariff];
    var created := mikrotik.CreateProfile(tariff, routerOk);
    return Saved(tariff);
  }

  /** Creating a tariff on a router that has no profile for it installs the
      profile for the stored parameters; a later update, whatever it changes,
      leaves that profile as it was, since the profile is only ever added when
      its name is absent. */
  lemma UpdateKeepsFirstProfile(db: Tables, profiles: seq<Profile>, f1: TariffForm, f2: TariffForm, ok2: bool)
    requires db.Valid() && ValidForm(f1) && ValidForm(f2)
    requires !HasProfile(profiles, ProfileName(db.nextTariffId))
    ensures var (db1, stored) := StoreEffect(db, f1);
            var profiles1 := CreateProfileOn(profiles, stored.tariff, true).0;
            var (db2, updated) := UpdateEffect(db1, stored.tariff.id, f2);
            && profiles1 == profiles + [ProfileFor(TariffFrom(f1, db.nextTariffId))]
            && updated == Saved(UpdatedTariff(TariffFrom(f1, db.nextTariffId), f2))
            && CreateProfileOn(profiles1, updated.tariff, ok2).0 == profiles1
  {
    var t1 := TariffFrom(f1, db.nextTariffId);
    var profiles1 := CreateProfileOn(profiles, t1, true).0;
    assert profiles1[|profiles|] == ProfileFor(t1);
    assert profiles1[..|profiles|] == profiles;
    assert profiles1 == profiles + [ProfileFor(t1)];
    assert profiles1[|profiles|].name == ProfileName(db.nextTariffId);
  }

  // ---------------------------------------------------------------------------
  // destroy
  // ---------------------------------------------------------------------------

  /** The first payment of an ordered table precedes every later one. */
  lemma HeadPrecedesRest(payments: seq<Payment>)
    requires payments != [] && IdsIncreasing(payments)
    ensures IdsIncreasing(payments[1..])
    ensures forall q :: q in payments[1..] ==>
              payments[0].id < q.id && payments[0].transactionId != q.transactionId
  {
    forall q | q in payments[1..]
      ensures payments[0].id < q.id && payments[0].transactionId != q.transactionId
    {
      var k :| 0 <= k < |payments[1..]| && payments[1..][k] == q;
      assert payments[k + 1] == q;
    }
  }

  lemma PrependIncreasing(p: Payment, rest: seq<Payment>)
    requires IdsIncreasing(rest)
    requires forall q :: q in rest ==> p.id < q.id && p.transactionId != q.transactionId
    ensures IdsIncreasing([p] + rest)
  {
    var r := [p] + rest;
    forall i, j | 0 <= i < j < |r|
      ensures r[i].id < r[j].id && r[i].transactionId != r[j].transactionId
    {
      assert r[j] == rest[j - 1];
      if i > 0 {
        assert r[i] == rest[i - 1];
      } else {
        assert rest[j - 1] in rest;
      }
    }
  }

  /** The payments that survive deleting tariff `id`: its payments are deleted
      with it by the foreign key's cascade; the rest keep their order. */
  function Cascade(payments: seq<Payment>, id: nat): (r: seq<Payment>)
    ensures |r| <= |payments|
    ensures forall p :: p in r <==> p in payments && p.tariffId != id
    ensures IdsIncreasing(payments) ==> IdsIncreasing(r)
    decreases |payments|
  {
    if payments == [] then []
    else
      var rest := Cascade(payments[1..], id);
      assert forall q :: q in payments <==> q == payments[0] || q in payments[1..];
      if payments[0].tariffId == id then
        assert IdsIncreasing(payments) ==> IdsIncreasing(rest) by {
          if IdsIncreasing(payments) { HeadPrecedesRest(payments); }
        }
        rest
      else
        assert IdsIncreasing(payments) ==> IdsIncreasing([payments[0]] + rest) by {
          if IdsIncreasing(payments) {
            HeadPrecedesRest(payments);
            PrependIncreasing(payments[0], rest);
          }
        }
        [payments[0]] + rest
  }

  /** The effect of `destroy`: an unknown id is a 404; otherwise the row and
      its payments are deleted. Vouchers, sessions and the router are not touched. */
  function DestroyEffect(db: Tables, id: nat): (r: (Tables, TariffReply))
    requires db.Valid()
    ensures r.0.Valid()
    ensures r.1 == NotFound <==> id !in db.tariffs
    ensures r.1 == NotFound ==> r.0 == db
    ensures r.1 == Deleted <==> id in db.tariffs
    ensures r.1 == Deleted ==>
              && r.0.tariffs == db.tariffs - {id}
              && (forall p :: p in r.0.payments <==> p in db.payments && p.tariffId != id)
              && r.0 == db.(tariffs := r.0.tariffs, payments := r.0.payments)
  {
    if id !in db.tariffs then (db, NotFound)
    else
      var kept := Cascade(db.payments, id);
      assert IdsIncreasing(db.payments);
      assert forall i :: 0 <= i < |kept| ==> kept[i] in db.payments && kept[i].tariffId != id by {
        forall i | 0 <= i < |kept| ensures kept[i] in db.payments && kept[i].tariffId != id {
          assert kept[i] in kept;
        }
      }
      (db.(tariffs := db.tariffs - {id}, payments := kept), Deleted)
  }

  /** Deleting a tariff leaves no payment pointing at it, and deleting it
      again answers 404. */
  lemma DestroyTwice(db: Tables, id: nat)
    requires db.Valid() && id in db.tariffs
    ensures var (db1, reply1) := DestroyEffect(db, id);
            && reply1 == Deleted
            && (forall i :: 0 <= i < |db1.payments| ==> db1.payments[i].tariffId != id)
            && DestroyEffect(db1, id) == (db1, NotFound)
  {
    var db1 := DestroyEffect(db, id).0;
    forall i | 0 <= i < |db1.payments| ensures db1.payments[i].tariffId != id {
      assert db1.payments[i] in db1.payments;
    }
  }

  /** The controller action. */
  method Destroy(db: Database, id: nat) returns (reply: TariffReply)
    requires db.Snapshot().Valid()
    modifies db`tariffs, db`payments
    ensures (db.Snapshot(), reply) == DestroyEffect(old(db.Snapshot()), id)
  {
    if id !in db.tariffs {
      return NotFound;
    }
    db.tariffs := db.tariffs - {id};
    db.payments := Cascade(db.payments, id);
    return Deleted;
  }
}
