/**
 * The database as in-memory state: one sequence per table, in table order.
 * `Db` is the mutable store that the route handlers write to; each of its
 * methods is one SQL statement (or one trigger body), and its contract ties
 * the new `State()` to a pure function of the old one. A statement that a
 * constraint rejects changes nothing, as in PostgreSQL.
 */
module Database {
  import opened Wrappers
  import opened Schema

  datatype Tables = Tables(
    users: seq<User>,
    websites: seq<Website>,
    promotions: seq<Promotion>,
    events: seq<Event>,
    wallets: seq<Wallet>,
    transactions: seq<Transaction>,
    preferences: seq<Preference>,
    contentItems: seq<ContentItem>,
    contentPromotions: seq<ContentPromotion>)

  /** Every check constraint and unique key of the schema. */
  predicate Consistent(t: Tables) {
    && BalancesNonNegative(t.wallets)
    && AmountsPositive(t.transactions)
    && UniqueUserIds(t.users)
    && UniqueWebsiteKeys(t.websites)
    && UniquePromotionIds(t.promotions)
    && UniqueWalletIds(t.wallets)
    && UniquePreferenceUsers(t.preferences)
  }

  // ---------------------------------------------------------------------------
  // Lookups. `findUnique` finds at most one row. `findFirst` without `orderBy`
  // returns whichever row the database reads first; the model assumes table
  // order and takes the first matching row.

  predicate HasUser(us: seq<User>, id: Uuid) {
    exists i :: 0 <= i < |us| && us[i].user_id == id
  }

  predicate HasWebsite(ws: seq<Website>, id: Uuid) {
    exists i :: 0 <= i < |ws| && ws[i].website_id == id
  }

  predicate HasPromotion(ps: seq<Promotion>, id: int) {
    exists i :: 0 <= i < |ps| && ps[i].promotion_id == id
  }

  predicate HasWallet(ws: seq<Wallet>, id: Uuid) {
    exists i :: 0 <= i < |ws| && ws[i].wallet_id == id
  }

  predicate HasPreference(ps: seq<Preference>, user: Uuid) {
    exists i :: 0 <= i < |ps| && ps[i].user_id == user
  }

  /** `websites.findUnique({ where: { verification_token } })`. */
  function WebsiteByToken(ws: seq<Website>, token: string): (r: Option<Website>)
    ensures r.Some? ==> r.value in ws && r.value.verification_token == token
    ensures r.None? <==> forall i :: 0 <= i < |ws| ==> ws[i].verification_token != token
  {
    if ws == [] then None
    else if ws[0].verification_token == token then Some(ws[0])
    else
      var r := WebsiteByToken(ws[1..], token);
      assert forall i :: 1 <= i < |ws| ==> ws[i] == ws[1..][i - 1];
      r
  }

  /** A wallet row satisfies `where: { user_id }`; an `undefined` user id drops the condition. */
  predicate WalletSelected(w: Wallet, user: Option<Uuid>) {
    user.None? || w.user_id == user.value
  }

  /** `wallets.findFirst({ where: { user_id } })`. */
  function FirstWallet(ws: seq<Wallet>, user: Option<Uuid>): (r: Option<Wallet>)
    ensures r.Some? ==> r.value in ws && WalletSelected(r.value, user)
    ensures r.Some? ==> exists i :: 0 <= i < |ws| && ws[i] == r.value
                          && forall j :: 0 <= j < i ==> !WalletSelected(ws[j], user)
    ensures r.None? <==> forall i :: 0 <= i < |ws| ==> !WalletSelected(ws[i], user)
  {
    if ws == [] then None
    else if WalletSelected(ws[0], user) then Some(ws[0])
    else
      var r := FirstWallet(ws[1..], user);
      assert forall i :: 1 <= i < |ws| ==> ws[i] == ws[1..][i - 1];
      if r.Some? then
        var k :| 0 <= k < |ws[1..]| && ws[1..][k] == r.value
                 && forall j :: 0 <= j < k ==> !WalletSelected(ws[1..][j], user);
        assert ws[k + 1] == r.value;
        r
      else r
  }

  // ---------------------------------------------------------------------------
  // UPDATE statements

  /**
   * `wallets.updateMany({ where: { user_id }, data: { balance: { increment } } })`
   * with the row trigger applied, before the check constraint is tested.
   */
  function CreditWallets(ws: seq<Wallet>, user: Option<Uuid>, delta: Cents, now: Millis): (r: seq<Wallet>)
    ensures |r| == |ws|
    ensures forall i :: 0 <= i < |ws| ==> r[i].wallet_id == ws[i].wallet_id && r[i].user_id == ws[i].user_id
    ensures forall i :: 0 <= i < |ws| && WalletSelected(ws[i], user) ==>
      r[i].balance == ws[i].balance + delta && r[i].updated_at == now
    ensures forall i :: 0 <= i < |ws| && !WalletSelected(ws[i], user) ==> r[i] == ws[i]
  {
    seq(|ws|, i requires 0 <= i < |ws| =>
      if WalletSelected(ws[i], user) then WalletUpdated(ws[i].(balance := ws[i].balance + delta), now)
      else ws[i])
  }

  /** A non-negative increment never violates `balance >= 0`. */
  lemma CreditKeepsBalances(ws: seq<Wallet>, user: Option<Uuid>, delta: Cents, now: Millis)
    requires BalancesNonNegative(ws) && delta >= 0
    ensures BalancesNonNegative(CreditWallets(ws, user, delta, now))
  {
  }

  /**
   * The rows the decrement's `where: { promotion_id }` selects: the one with
   * that id, or every row when `promotion_id` is `undefined` and Prisma drops
   * the filter (`id == None`).
   */
  predicate Addressed(p: Promotion, id: Option<int>) {
    id.None? || p.promotion_id == id.value
  }

  /**
   * `promotions.updateMany({ where: { promotion_id }, data: { remaining_impressions: { decrement: 1 } } })`
   * with both BEFORE UPDATE triggers applied.
   */
  function DecrementImpressions(ps: seq<Promotion>, id: Option<int>, now: Millis): (r: seq<Promotion>)
    ensures |r| == |ps|
    ensures forall i :: 0 <= i < |ps| && Addressed(ps[i], id) ==>
      r[i] == PromotionUpdated(ps[i].(remaining_impressions := ps[i].remaining_impressions - 1), now)
    ensures forall i :: 0 <= i < |ps| && !Addressed(ps[i], id) ==> r[i] == ps[i]
  {
    seq(|ps|, i requires 0 <= i < |ps| =>
      if Addressed(ps[i], id)
      then PromotionUpdated(ps[i].(remaining_impressions := ps[i].remaining_impressions - 1), now)
      else ps[i])
  }

  /** After the decrement only the addressed promotions differ, and they obey the inactivation rule. */
  lemma DecrementTouchesOnlyTarget(ps: seq<Promotion>, id: Option<int>, now: Millis)
    ensures var r := DecrementImpressions(ps, id, now);
      forall i :: 0 <= i < |ps| ==>
        if Addressed(ps[i], id) then
          && r[i].remaining_impressions == ps[i].remaining_impressions - 1
          && r[i].updated_at == now
          && (r[i].remaining_impressions <= 0 ==> r[i].status == Inactive)
          && (r[i].remaining_impressions > 0 ==> r[i].status == ps[i].status)
          && r[i].promotion_id == ps[i].promotion_id && r[i].budget == ps[i].budget && r[i].boost == ps[i].boost
        else r[i] == ps[i]
  {
  }

  // ---------------------------------------------------------------------------
  // INSERT statements and their foreign keys

  /**
   * The foreign keys of an `events` row, and the `inet` parse of its IP
   * address (`inetValid` stands for PostgreSQL's `inet` input syntax).
   */
  predicate EventAccepted(t: Tables, e: Event, inetValid: string -> bool) {
    && HasPromotion(t.promotions, e.promoted_content_id)
    && (e.ip_address.Some? ==> inetValid(e.ip_address.value))
    && (e.host_website_id.Some? ==> HasWebsite(t.websites, e.host_website_id.value))
    && (e.viewer_user_id.Some? ==> HasUser(t.users, e.viewer_user_id.value))
  }

  /** The foreign keys and the `amount > 0` check of a `transactions` row. */
  predicate TransactionAccepted(t: Tables, x: Transaction) {
    && x.amount > 0
    && HasPromotion(t.promotions, x.content_id)
    && (x.from_wallet_id.Some? ==> HasWallet(t.wallets, x.from_wallet_id.value))
    && (x.to_wallet_id.Some? ==> HasWallet(t.wallets, x.to_wallet_id.value))
  }

  /** `transactions.createMany`: one INSERT, so one bad row rejects them all. */
  predicate TransactionsAccepted(t: Tables, xs: seq<Transaction>) {
    forall i :: 0 <= i < |xs| ==> TransactionAccepted(t, xs[i])
  }

  /**
   * `handle_new_user`, fired AFTER INSERT on the identity provider's user
   * table: it fails (and so rolls back the sign-up) when the user id, the
   * generated wallet id or the preferences' unique user id is taken.
   */
  predicate ProvisionAccepted(t: Tables, id: Uuid, walletId: Uuid) {
    !HasUser(t.users, id) && !HasWallet(t.wallets, walletId) && !HasPreference(t.preferences, id)
  }

  /** The three rows `handle_new_user` inserts. */
  function Provisioned(t: Tables, id: Uuid, walletId: Uuid, now: Millis): (r: Tables)
    ensures r.users == t.users + [User(id, Viewer, now)]
    ensures r.wallets == t.wallets + [Wallet(walletId, id, 0, now)]
    ensures r.preferences == t.preferences + [Preference(id, [], now)]
    ensures r == t.(users := r.users, wallets := r.wallets, preferences := r.preferences)
  {
    t.(users := t.users + [User(id, Viewer, now)],
       wallets := t.wallets + [Wallet(walletId, id, 0, now)],
       preferences := t.preferences + [Preference(id, [], now)])
  }

  /** Provisioning a fresh user keeps every constraint of the schema. */
  lemma {:induction false} ProvisionKeepsConsistency(t: Tables, id: Uuid, walletId: Uuid, now: Millis)
    requires Consistent(t) && ProvisionAccepted(t, id, walletId)
    ensures Consistent(Provisioned(t, id, walletId, now))
  {
    var r := Provisioned(t, id, walletId, now);
    forall i, j | 0 <= i < j < |r.users| ensures r.users[i].user_id != r.users[j].user_id {
      if j == |t.users| { assert r.users[i] == t.users[i]; }
    }
    forall i, j | 0 <= i < j < |r.wallets| ensures r.wallets[i].wallet_id != r.wallets[j].wallet_id {
      if j == |t.wallets| { assert r.wallets[i] == t.wallets[i]; }
    }
    forall i, j | 0 <= i < j < |r.preferences| ensures r.preferences[i].user_id != r.preferences[j].user_id {
      if j == |t.preferences| { assert r.preferences[i] == t.preferences[i]; }
    }
  }

  /** The daily purge's DELETE succeeds unless an event or transaction still references a victim. */
  predicate PurgeAccepted(t: Tables, now: Millis) {
    !PurgeBlocked(t.events, t.transactions, PurgedIds(t.promotions, now))
  }

  /**
   * A purging promotion only gets older, and a refused purge changes nothing,
   * so once an event or a transaction refers to one the daily purge fails at
   * every later run.
   */
  lemma PurgeStaysBlocked(t: Tables, now: Millis, later: Millis)
    requires !PurgeAccepted(t, now) && now <= later
    ensures !PurgeAccepted(t, later)
  {
    var gone, gone' := PurgedIds(t.promotions, now), PurgedIds(t.promotions, later);
    assert gone <= gone' by {
      forall id | id in gone ensures id in gone' {
        var i :| 0 <= i < |t.promotions| && t.promotions[i].promotion_id == id && Purgeable(t.promotions[i], now);
        assert Purgeable(t.promotions[i], later);
      }
    }
    if exists i :: 0 <= i < |t.events| && t.events[i].promoted_content_id in gone {
      var i :| 0 <= i < |t.events| && t.events[i].promoted_content_id in gone;
      assert t.events[i].promoted_content_id in gone';
    } else {
      var i :| 0 <= i < |t.transactions| && t.transactions[i].content_id in gone;
      assert t.transactions[i].content_id in gone';
    }
  }

  /** The state after a successful purge: old inactive promotions go, every other row stays. */
  function Purged(t: Tables, now: Millis): (r: Tables)
    ensures forall p :: p in r.promotions <==> p in t.promotions && !Purgeable(p, now)
    ensures r == t.(promotions := r.promotions)
  {
    t.(promotions := KeptPromotions(t.promotions, now))
  }

  /** `x` stands at an earlier index of `s` than `y`. */
  ghost predicate Precedes<T>(s: seq<T>, x: T, y: T) {
    exists a, b :: 0 <= a < b < |s| && s[a] == x && s[b] == y
  }

  /** The purge keeps the surviving promotions in their table order. */
  lemma {:induction false} PurgeKeepsOrder(ps: seq<Promotion>, now: Millis, i: int, j: int)
    requires 0 <= i < j < |ps| && !Purgeable(ps[i], now) && !Purgeable(ps[j], now)
    ensures Precedes(KeptPromotions(ps, now), ps[i], ps[j])
    decreases |ps|
  {
    var rest := KeptPromotions(ps[1..], now);
    assert ps[1..][j - 1] == ps[j];
    if i == 0 {
      assert KeptPromotions(ps, now) == [ps[0]] + rest;
      HeadPrecedes(ps[0], rest, ps[j]);
    } else {
      assert ps[1..][i - 1] == ps[i];
      PurgeKeepsOrder(ps[1..], now, i - 1, j - 1);
      if !Purgeable(ps[0], now) {
        assert KeptPromotions(ps, now) == [ps[0]] + rest;
        ConsPrecedes(ps[0], rest, ps[i], ps[j]);
      }
    }
  }

  lemma HeadPrecedes<T>(x: T, rest: seq<T>, y: T)
    requires y in rest
    ensures Precedes([x] + rest, x, y)
  {
    var b :| 0 <= b < |rest| && rest[b] == y;
    assert ([x] + rest)[0] == x && ([x] + rest)[b + 1] == y;
  }

  lemma ConsPrecedes<T>(x: T, rest: seq<T>, u: T, v: T)
    requires Precedes(rest, u, v)
    ensures Precedes([x] + rest, u, v)
  {
    var a, b :| 0 <= a < b < |rest| && rest[a] == u && rest[b] == v;
    assert ([x] + rest)[a + 1] == u && ([x] + rest)[b + 1] == v;
  }

  // ---------------------------------------------------------------------------
  // The store

  class Db {
    var users: seq<User>
    var websites: seq<Website>
    var promotions: seq<Promotion>
    var events: seq<Event>
    var wallets: seq<Wallet>
    var transactions: seq<Transaction>
    var preferences: seq<Preference>
    var contentItems: seq<ContentItem>
    var contentPromotions: seq<ContentPromotion>

    function State(): Tables
      reads this
    {
      Tables(users, websites, promotions, events, wallets, transactions, preferences,
             contentItems, contentPromotions)
    }

    constructor (initial: Tables)
      ensures State() == initial
    {
      users, websites, promotions := initial.users, initial.websites, initial.promotions;
      events, wallets, transactions := initial.events, initial.wallets, initial.transactions;
      preferences := initial.preferences;
      contentItems, contentPromotions := initial.contentItems, initial.contentPromotions;
    }

    /** A balance `updateMany`; `ok` is false when the check constraint rejects the statement. */
    method Credit(user: Option<Uuid>, delta: Cents, now: Millis) returns (ok: bool)
      modifies this
      ensures ok == BalancesNonNegative(CreditWallets(old(wallets), user, delta, now))
      ensures State() == if ok then old(State()).(wallets := CreditWallets(old(wallets), user, delta, now))
                         else old(State())
    {
      var updated := CreditWallets(wallets, user, delta, now);
      ok := forall i :: 0 <= i < |updated| ==> updated[i].balance >= 0;
      if ok {
        wallets := updated;
      }
    }

    /** The impression `updateMany` on `promotions` (no constraint can reject it). */
    method Decrement(id: Option<int>, now: Millis)
      modifies this
      ensures State() == old(State()).(promotions := DecrementImpressions(old(promotions), id, now))
    {
      promotions := DecrementImpressions(promotions, id, now);
    }

    /** `events.create`; `ok` is false on a foreign-key violation or a malformed address. */
    method InsertEvent(e: Event, inetValid: string -> bool) returns (ok: bool)
      modifies this
      ensures ok == EventAccepted(old(State()), e, inetValid)
      ensures State() == if ok then old(State()).(events := old(events) + [e]) else old(State())
    {
      ok := EventAccepted(State(), e, inetValid);
      if ok {
        events := events + [e];
      }
    }

    /** `transactions.createMany`; `ok` is false when any row breaks a key or the amount check. */
    method InsertTransactions(xs: seq<Transaction>) returns (ok: bool)
      modifies this
      ensures ok == TransactionsAccepted(old(State()), xs)
      ensures State() == if ok then old(State()).(transactions := old(transactions) + xs) else old(State())
    {
      ok := TransactionsAccepted(State(), xs);
      if ok {
        transactions := transactions + xs;
      }
    }

    /** `handle_new_user` for a new identity-provider account `id`; `walletId` is the generated key. */
    method ProvisionUser(id: Uuid, walletId: Uuid, now: Millis) returns (ok: bool)
      modifies this
      ensures ok == ProvisionAccepted(old(State()), id, walletId)
      ensures State() == if ok then Provisioned(old(State()), id, walletId, now) else old(State())
    {
      ok := ProvisionAccepted(State(), id, walletId);
      if ok {
        users := users + [User(id, Viewer, now)];
        wallets := wallets + [Wallet(walletId, id, 0, now)];
        preferences := preferences + [Preference(id, [], now)];
      }
    }

    /** The body of the `delete_old_inactive_promotions` cron job, run at time `now`. */
    method PurgeInactivePromotions(now: Millis) returns (ok: bool)
      modifies this
      ensures ok == PurgeAccepted(old(State()), now)
      ensures State() == if ok then Purged(old(State()), now) else old(State())
    {
      var gone := PurgedIds(promotions, now);
      ok := !PurgeBlocked(events, transactions, gone);
      if ok {
        promotions := KeptPromotions(promotions, now);
      }
    }

    /** `websites.create`; `ok` is false when a unique key or the owner's foreign key is violated. */
    method InsertWebsite(w: Website) returns (ok: bool)
      modifies this
      ensures ok == WebsiteAccepted(old(State()), w)
      ensures State() == if ok then old(State()).(websites := old(websites) + [w]) else old(State())
    {
      ok := WebsiteAccepted(State(), w);
      if ok {
        websites := websites + [w];
      }
    }

    /** `public_users.create` with a given role (the primary key must be free). */
    method InsertUser(u: User) returns (ok: bool)
      modifies this
      ensures ok == !HasUser(old(users), u.user_id)
      ensures State() == if ok then old(State()).(users := old(users) + [u]) else old(State())
    {
      ok := !HasUser(users, u.user_id);
      if ok {
        users := users + [u];
      }
    }

    /** `promotions.create` in the ORM schema keyed by `content_id`. */
    method InsertContentPromotion(p: ContentPromotion)
      modifies this
      ensures State() == old(State()).(contentPromotions := old(contentPromotions) + [p])
    {
      contentPromotions := contentPromotions + [p];
    }
  }

  /** The unique keys of `websites` and its `owner_id` foreign key. */
  predicate WebsiteAccepted(t: Tables, w: Website) {
    && HasUser(t.users, w.owner_id)
    && forall i :: 0 <= i < |t.websites| ==>
         t.websites[i].website_id != w.website_id
         && t.websites[i].domain_name != w.domain_name
         && t.websites[i].verification_token != w.verification_token
  }
}
