/** Voucher administration (app/Http/Controllers/Admin/VoucherController.php):
    bulk generation of vouchers for a tariff, and the status and code-search
    filters of the voucher listing. */
module VoucherAdmin {
  import opened Common
  import opened Models
  import opened Persistence

  // ---------------------------------------------------------------------------
  // The listing's filters
  // ---------------------------------------------------------------------------

  /** The `status` filter: `used`, `unused`, or `expired` (an expiry set and in
      the past, whether or not the voucher was used). No filter and any other
      value keep every voucher. */
  predicate MatchesStatus(status: Option<string>, v: Voucher, now: int) {
    match status
    case None => true
    case Some(s) =>
      if s == "used" then v.used
      else if s == "unused" then !v.used
      else if s == "expired" then IsExpired(v, now)
      else true
  }

  /** SQL `LIKE`: `%` matches any run of characters, `_` any one character,
      everything else itself. */
  predicate Like(text: string, pattern: string)
    decreases |text| + |pattern|
  {
    if pattern == [] then text == []
    else if pattern[0] == '%' then Like(text, pattern[1..]) || (text != [] && Like(text[1..], pattern))
    else text != [] && (pattern[0] == '_' || pattern[0] == text[0]) && Like(text[1..], pattern[1..])
  }

  /** The `search` filter: `code LIKE '%' . search . '%'`. */
  predicate MatchesSearch(search: Option<string>, code: string) {
    search.None? || Like(code, "%" + search.value + "%")
  }

  /** The vouchers the listing shows, before ordering and pagination. */
  function Listed(vouchers: seq<Voucher>, status: Option<string>, search: Option<string>, now: int)
    : (r: seq<Voucher>)
    ensures |r| <= |vouchers|
    ensures forall v :: v in r <==> v in vouchers && MatchesStatus(status, v, now) && MatchesSearch(search, v.code)
    // Each matching voucher appears as often as in the table, the others not at all.
    ensures forall v :: multiset(r)[v] ==
              if MatchesStatus(status, v, now) && MatchesSearch(search, v.code) then multiset(vouchers)[v] else 0
  {
    Filter(vouchers, (v: Voucher) => MatchesStatus(status, v, now) && MatchesSearch(search, v.code))
  }

  predicate NoWildcards(s: string) {
    forall i :: 0 <= i < |s| ==> s[i] != '%' && s[i] != '_'
  }

  /** `needle` occurs in `text` starting at position `i`. */
  predicate OccursAt(text: string, needle: string, i: int) {
    0 <= i <= |text| - |needle| && text[i..i + |needle|] == needle
  }

  /** `needle` occurs in `text` as a contiguous run. */
  ghost predicate Contains(text: string, needle: string) {
    exists i :: OccursAt(text, needle, i)
  }

  /** `%` alone matches every text. */
  lemma {:induction false} LikeAnything(text: string)
    ensures Like(text, "%")
    decreases |text|
  {
    if text != [] {
      LikeAnything(text[1..]);
    }
  }

  /** A wildcard-free word followed by `%` matches exactly the texts it starts. */
  lemma {:induction false} LikePrefix(text: string, word: string)
    requires NoWildcards(word)
    ensures Like(text, word + "%") <==> |word| <= |text| && text[..|word|] == word
    decreases |word|
  {
    if word == [] {
      assert word + "%" == "%";
      LikeAnything(text);
    } else {
      assert (word + "%")[1..] == word[1..] + "%";
      LikePrefix(if text == [] then text else text[1..], word[1..]);
      if text != [] && |word| <= |text| && text[..|word|] == word {
        assert text[1..][..|word| - 1] == word[1..];
      }
      if text != [] && Like(text[1..], word[1..] + "%") {
        assert text[..|word|] == [text[0]] + text[1..][..|word| - 1];
      }
    }
  }

  /** A leading `%` lets the rest of the pattern match any suffix. */
  lemma {:induction false} LikeSuffix(text: string, rest: string)
    ensures Like(text, "%" + rest) <==> exists i :: 0 <= i <= |text| && Like(text[i..], rest)
    decreases |text|
  {
    assert ("%" + rest)[1..] == rest;
    assert text[0..] == text;
    if text != [] {
      LikeSuffix(text[1..], rest);
      forall i | 0 <= i <= |text| - 1
        ensures text[1..][i..] == text[i + 1..]
      {
      }
      if exists i :: 0 <= i <= |text| && Like(text[i..], rest) {
        var i :| 0 <= i <= |text| && Like(text[i..], rest);
        if i > 0 {
          assert text[1..][i - 1..] == text[i..];
        }
      }
    }
  }

  /** For a search term without wildcards, the search filter is a substring test. */
  lemma SearchIsSubstring(search: string, code: string)
    requires NoWildcards(search)
    ensures MatchesSearch(Some(search), code) <==> Contains(code, search)
  {
    assert "%" + search + "%" == "%" + (search + "%");
    LikeSuffix(code, search + "%");
    if Contains(code, search) {
      var i :| OccursAt(code, search, i);
      LikePrefix(code[i..], search);
      assert code[i..][..|search|] == code[i..i + |search|];
    }
    if exists i :: 0 <= i <= |code| && Like(code[i..], search + "%") {
      var i :| 0 <= i <= |code| && Like(code[i..], search + "%");
      LikePrefix(code[i..], search);
      assert code[i..][..|search|] == code[i..i + |search|];
      assert OccursAt(code, search, i);
    }
  }

  /** `unused` and `expired` are not exclusive: an unused voucher past its
      expiry is listed under both, and a used one under `used` and `expired`. */
  lemma ExpiredOverlapsUsedAndUnused(v: Voucher, now: int)
    requires IsExpired(v, now)
    ensures MatchesStatus(Some("expired"), v, now)
    ensures MatchesStatus(Some(if v.used then "used" else "unused"), v, now)
  {
  }

  // ---------------------------------------------------------------------------
  // generate
  // ---------------------------------------------------------------------------

  /** The redirect's message: how many vouchers were generated. */
  datatype GenerateReply = InvalidRequest | Generated(count: nat)

  /** The largest batch one request may ask for. */
  const MaxBatch: nat := 100

  /** `randoms` holds the ten-character strings the random generator supplies,
      one per voucher of the largest batch. */
  predicate RandomCodes(randoms: seq<string>) {
    |randoms| >= MaxBatch && forall k :: 0 <= k < |randoms| ==> |randoms[k]| == 10 && AllAlnum(randoms[k])
  }

  /** The first `n` vouchers a batch for tariff `t` creates at `now`. */
  function Batch(randoms: seq<string>, t: Tariff, now: int, n: nat): (batch: seq<Voucher>)
    requires RandomCodes(randoms) && n <= MaxBatch
    ensures |batch| == n
    ensures forall k :: 0 <= k < n ==> batch[k] == IssuedVoucher(randoms[k], t, None, now)
  {
    seq(n, k requires 0 <= k < n => IssuedVoucher(randoms[k], t, None, now))
  }

  /** The validation rules: an existing tariff, and an integer quantity from 1 to 100. */
  predicate ValidBatchRequest(db: Tables, tariffId: Option<nat>, quantity: Option<int>) {
    tariffId.Some? && tariffId.value in db.tariffs
    && quantity.Some? && 1 <= quantity.value <= MaxBatch
  }

  /** The effect of `generate`: `quantity` new vouchers for the tariff, none
      attached to a payment, each unused and expiring by the tariff's rule. */
  function GenerateEffect(db: Tables, tariffId: Option<nat>, quantity: Option<int>, randoms: seq<string>, now: int)
    : (r: (Tables, GenerateReply))
    requires db.Valid()
    requires RandomCodes(randoms)
    ensures r.1 == InvalidRequest <==> !ValidBatchRequest(db, tariffId, quantity)
    ensures r.1 == InvalidRequest ==> r.0 == db
    ensures r.1.Generated? ==>
              && r.1.count == quantity.value
              && r.0 == db.(vouchers := r.0.vouchers)
              && |r.0.vouchers| == |db.vouchers| + r.1.count
              && r.0.vouchers[..|db.vouchers|] == db.vouchers
              && forall k :: |db.vouchers| <= k < |r.0.vouchers| ==>
                   var v := r.0.vouchers[k];
                   && v.code == VoucherCode(randoms[k - |db.vouchers|])
                   && v.tariffId == tariffId.value
                   && v.paymentId.None?
                   && !v.used
                   && v.expiresAt == Some(ExpiryFor(db.tariffs[tariffId.value], now))
  {
    if !ValidBatchRequest(db, tariffId, quantity) then (db, InvalidRequest)
    else
      var t := db.tariffs[tariffId.value];
      var batch := Batch(randoms, t, now, quantity.value);
      var vouchers := db.vouchers + batch;
      assert vouchers[..|db.vouchers|] == db.vouchers;
      assert forall k :: |db.vouchers| <= k < |vouchers| ==>
               var v := vouchers[k];
               && v.code == VoucherCode(randoms[k - |db.vouchers|])
               && v.tariffId == tariffId.value
               && v.paymentId.None?
               && !v.used
               && v.expiresAt == Some(ExpiryFor(t, now)) by {
        forall k | |db.vouchers| <= k < |vouchers|
          ensures vouchers[k] == IssuedVoucher(randoms[k - |db.vouchers|], t, None, now)
        {
          assert vouchers[k] == batch[k - |db.vouchers|];
        }
      }
      (db.(vouchers := vouchers), Generated(quantity.value))
  }

  /** An issued code is found by searching for itself. */
  lemma CodeFindsItself(random: string)
    requires |random| == 10 && AllAlnum(random)
    ensures MatchesSearch(Some(VoucherCode(random)), VoucherCode(random))
  {
    var code := VoucherCode(random);
    assert NoWildcards(code) by {
      forall i | 0 <= i < |code| ensures code[i] != '%' && code[i] != '_' {
        assert IsUpperAlnum(code[i]);
      }
    }
    SearchIsSubstring(code, code);
    assert OccursAt(code, code, 0);
  }

  /** Every voucher a batch creates is listed under `unused` and, at the moment
      of generation, not under `expired`, and each is found by searching for its
      own code. */
  lemma GeneratedAreListedUnused(db: Tables, tariffId: Option<nat>, quantity: Option<int>, randoms: seq<string>,
                                 now: int, k: nat)
    requires db.Valid()
    requires RandomCodes(randoms)
    requires ValidBatchRequest(db, tariffId, quantity)
    requires |db.vouchers| <= k < |db.vouchers| + quantity.value
    ensures var vs := GenerateEffect(db, tariffId, quantity, randoms, now).0.vouchers;
            && vs[k] in Listed(vs, Some("unused"), Some(vs[k].code), now)
            && vs[k] !in Listed(vs, Some("expired"), None, now)
  {
    var vs := GenerateEffect(db, tariffId, quantity, randoms, now).0.vouchers;
    var v := vs[k];
    var random := randoms[k - |db.vouchers|];
    assert v.code == VoucherCode(random) && !v.used;
    assert v.expiresAt == Some(ExpiryFor(db.tariffs[tariffId.value], now));
    CodeFindsItself(random);
    assert MatchesStatus(Some("unused"), v, now) && MatchesSearch(Some(v.code), v.code);
    assert !MatchesStatus(Some("expired"), v, now);
  }

  /** No check is made against the codes already issued: when the generator
      repeats an existing code, the table ends up with two vouchers carrying it. */
  lemma GenerateAllowsDuplicateCodes(db: Tables, tariffId: Option<nat>, quantity: Option<int>,
                                     randoms: seq<string>, now: int, j: nat)
    requires db.Valid()
    requires RandomCodes(randoms)
    requires ValidBatchRequest(db, tariffId, quantity)
    requires j < |db.vouchers| && db.vouchers[j].code == VoucherCode(randoms[0])
    ensures var vs := GenerateEffect(db, tariffId, quantity, randoms, now).0.vouchers;
            j != |db.vouchers| && vs[j].code == vs[|db.vouchers|].code
  {
  }

  /** The controller action: validate, then create the vouchers one by one. */
  method Generate(db: Database, tariffId: Option<nat>, quantity: Option<int>, randoms: seq<string>, now: int)
    returns (reply: GenerateReply)
    requires db.Snapshot().Valid()
    requires RandomCodes(randoms)
    modifies db`vouchers
    ensures db.Snapshot() == GenerateEffect(old(db.Snapshot()), tariffId, quantity, randoms, now).0
    ensures reply == GenerateEffect(old(db.Snapshot()), tariffId, quantity, randoms, now).1
  {
    if !ValidBatchRequest(db.Snapshot(), tariffId, quantity) {
      return InvalidRequest;
    }
    var tariff := db.tariffs[tariffId.value];
    var n: nat := quantity.value;
    var i: nat := 0;
    while i < n
      invariant i <= n
      invariant db.vouchers == old(db.vouchers) + Batch(randoms, tariff, now, i)
    {
      db.vouchers := db.vouchers + [IssuedVoucher(randoms[i], tariff, None, now)];
      i := i + 1;
    }
    return Generated(n);
  }
}
