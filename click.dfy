/**
 * `POST /api/widget/click`: one click on a recommended promotion pays the
 * viewer and the host, spends one impression and records an event and two
 * ledger rows. The statements run one after another with no enclosing
 * transaction, so a failing statement answers 500 and keeps every earlier
 * write.
 */
module WidgetClick {
  import opened Wrappers
  import opened Json
  import opened Schema
  import opened Database

  /** The platform's user id, which is also its wallet id. */
  const PLATFORM_ID: string := "a1b2c3d4-e5f6-5432-1098-76543210abcd"
  const ROBINHOOD: string := "ROBINHOOD"
  const VIEWER_BONUS: Cents := 3
  const HOST_PAYMENT: Cents := 7

  /**
   * The parsed request: the JSON body's `hostToken` and `userId` (None when
   * absent), its `promotion_id` as whatever JSON value it holds (`Undefined`
   * when absent) and the three headers read.
   */
  datatype ClickRequest = ClickRequest(
    hostToken: Option<string>,
    promotionId: JsonValue,
    userId: Option<string>,
    forwardedFor: Option<string>,
    cfConnectingIp: Option<string>,
    userAgent: Option<string>)

  datatype ClickOutcome = ClickOutcome(status: int, after: Tables)

  /**
   * The values the `serial` columns take when an insert leaves them out: the
   * next value of `events.promoted_content_id`'s sequence for the event, and
   * two successive values of `transactions.content_id`'s sequence for the two
   * ledger rows. The sequences themselves are not tracked, so the values come
   * in as a parameter.
   */
  datatype SequenceDraws = SequenceDraws(event: int, viewerTx: int, hostTx: int)

  /**
   * Prisma's argument validation of `promotion_id` in `where` and `data`: a
   * number, or `undefined` (the field is omitted). `null`, strings, booleans,
   * arrays and objects are rejected and the statement throws.
   */
  predicate PromotionIdAccepted(v: JsonValue) {
    v.Undefined? || v.Number?
  }

  /** The decrement's filter: the given id, or none at all when `promotion_id` is absent. */
  function PromotionFilter(v: JsonValue): (f: Option<int>)
    ensures v.Number? <==> f.Some?
    ensures v.Number? ==> f == Some(v.n)
  {
    if v.Number? then Some(v.n) else None
  }

  /** The content id an inserted row stores: the given id, or the column's sequence default. */
  function ContentIdOf(v: JsonValue, drawn: int): (id: int)
    ensures v.Number? ==> id == v.n
    ensures !v.Number? ==> id == drawn
  {
    if v.Number? then v.n else drawn
  }

  /** JavaScript `a || b` for an optional string. */
  function OrElse(a: Option<string>, b: string): (r: string)
    ensures FalsyString(a) ==> r == b
    ensures !FalsyString(a) ==> r == a.value
  {
    if FalsyString(a) then b else a.value
  }

  /** `x-forwarded-for || cf-connecting-ip || "unknown"`. */
  function ClientIp(req: ClickRequest): (ip: string)
    ensures ip == "unknown" <==>
      (FalsyString(req.forwardedFor) || req.forwardedFor == Some("unknown"))
      && (!FalsyString(req.forwardedFor) || FalsyString(req.cfConnectingIp) || req.cfConnectingIp == Some("unknown"))
  {
    OrElse(req.forwardedFor, OrElse(req.cfConnectingIp, "unknown"))
  }

  /** `if (userId === "ROBINHOOD") userId = PLATFORM_ID`. */
  function Viewer(userId: Option<string>): (v: Option<string>)
    ensures v != Some(ROBINHOOD)
    ensures userId != Some(ROBINHOOD) ==> v == userId
  {
    if userId == Some(ROBINHOOD) then Some(PLATFORM_ID) else userId
  }

  /** The `click` event row. */
  function ClickEvent(req: ClickRequest, draws: SequenceDraws, site: Option<Website>, now: Millis): (e: Event)
    ensures e.event_type == EventType.Click && e.promoted_content_id == ContentIdOf(req.promotionId, draws.event)
    ensures e.host_website_id == if site.Some? then Some(site.value.website_id) else None
    ensures e.viewer_user_id == Viewer(req.userId)
    ensures e.ip_address == Some(ClientIp(req)) && e.user_agent == Some(OrElse(req.userAgent, "unknown"))
  {
    Event(ContentIdOf(req.promotionId, draws.event), if site.Some? then Some(site.value.website_id) else None,
          Viewer(req.userId), EventType.Click, Some(ClientIp(req)), Some(OrElse(req.userAgent, "unknown")), now)
  }

  /** The wallet id of the first wallet selected by `user`, as `findFirst(...)?.wallet_id`. */
  function WalletIdOf(ws: seq<Wallet>, user: Option<Uuid>): (r: Option<Uuid>)
    ensures r.Some? <==> FirstWallet(ws, user).Some?
    ensures r.Some? ==> r.value == FirstWallet(ws, user).value.wallet_id
  {
    match FirstWallet(ws, user)
    case None => None
    case Some(w) => Some(w.wallet_id)
  }

  /** The owner id of a looked-up website, as `website_owner_uuid?.owner_id`. */
  function OwnerOf(site: Option<Website>): Option<Uuid> {
    if site.Some? then Some(site.value.owner_id) else None
  }

  /** The two ledger rows: a viewer bonus and a host payment, both from the platform wallet. */
  function ClickTransactions(ws: seq<Wallet>, req: ClickRequest, draws: SequenceDraws, site: Option<Website>, now: Millis): (xs: seq<Transaction>)
    ensures |xs| == 2
    ensures xs[0].transaction_type == ViewerBonus && xs[0].amount == VIEWER_BONUS
    ensures xs[1].transaction_type == HostPayment && xs[1].amount == HOST_PAYMENT
    ensures forall x :: x in xs ==> x.from_wallet_id == Some(PLATFORM_ID) && x.amount > 0
    ensures xs[0].content_id == ContentIdOf(req.promotionId, draws.viewerTx)
    ensures xs[1].content_id == ContentIdOf(req.promotionId, draws.hostTx)
    ensures xs[0].to_wallet_id == WalletIdOf(ws, Viewer(req.userId))
    ensures xs[1].to_wallet_id == WalletIdOf(ws, OwnerOf(site))
  {
    [Transaction(ContentIdOf(req.promotionId, draws.viewerTx), Some(PLATFORM_ID), WalletIdOf(ws, Viewer(req.userId)), VIEWER_BONUS, ViewerBonus, now),
     Transaction(ContentIdOf(req.promotionId, draws.hostTx), Some(PLATFORM_ID), WalletIdOf(ws, OwnerOf(site)), HOST_PAYMENT, HostPayment, now)]
  }

  /** The tables after the host credit: unchanged when the token matches no website. */
  function HostCredited(ws: seq<Wallet>, site: Option<Website>, now: Millis): seq<Wallet> {
    if site.Some? then CreditWallets(ws, Some(site.value.owner_id), HOST_PAYMENT, now) else ws
  }

  /** The whole handler as a function of the tables before the request. */
  function Click(t: Tables, req: ClickRequest, inetValid: string -> bool, draws: SequenceDraws, now: Millis): (o: ClickOutcome)
    ensures o.status == 400 <==> FalsyString(req.hostToken)
    ensures o.after.users == t.users && o.after.websites == t.websites && o.after.preferences == t.preferences
    ensures o.after.contentItems == t.contentItems && o.after.contentPromotions == t.contentPromotions
    ensures |o.after.wallets| == |t.wallets| && |o.after.promotions| == |t.promotions|
    ensures o.status == 200 ==> |o.after.events| == |t.events| + 1 && |o.after.transactions| == |t.transactions| + 2
    ensures o.status != 200 ==> o.after.transactions == t.transactions
  {
    if FalsyString(req.hostToken) then ClickOutcome(400, t)
    else
      var viewer := Viewer(req.userId);
      var w1 := CreditWallets(t.wallets, viewer, VIEWER_BONUS, now);
      if !BalancesNonNegative(w1) then ClickOutcome(500, t)
      else
        var t1 := t.(wallets := w1);
        var site := WebsiteByToken(t1.websites, req.hostToken.value);
        var w2 := HostCredited(w1, site, now);
        if !BalancesNonNegative(w2) then ClickOutcome(500, t1)
        else
          var t2 := t1.(wallets := w2);
          if !PromotionIdAccepted(req.promotionId) then ClickOutcome(500, t2)
          else
            var t3 := t2.(promotions := DecrementImpressions(t2.promotions, PromotionFilter(req.promotionId), now));
            var e := ClickEvent(req, draws, site, now);
            if !EventAccepted(t3, e, inetValid) then ClickOutcome(500, t3)
            else
              var t4 := t3.(events := t3.events + [e]);
              var xs := ClickTransactions(t4.wallets, req, draws, site, now);
              if !TransactionsAccepted(t4, xs) then ClickOutcome(500, t4)
              else ClickOutcome(200, t4.(transactions := t4.transactions + xs))
  }

  /** The handler, statement by statement, against the store. */
  method HandleClick(db: Db, req: ClickRequest, inetValid: string -> bool, draws: SequenceDraws, now: Millis) returns (status: int)
    modifies db
    ensures ClickOutcome(status, db.State()) == Click(old(db.State()), req, inetValid, draws, now)
  {
    if FalsyString(req.hostToken) {
      return 400;
    }
    var userId := req.userId;
    if userId == Some(ROBINHOOD) {
      userId := Some(PLATFORM_ID);
    }
    var ok := db.Credit(userId, VIEWER_BONUS, now);
    if !ok {
      return 500;
    }
    var site := WebsiteByToken(db.websites, req.hostToken.value);
    if site.Some? {
      ok := db.Credit(Some(site.value.owner_id), HOST_PAYMENT, now);
      if !ok {
        return 500;
      }
    }
    if !(req.promotionId.Undefined? || req.promotionId.Number?) {
      return 500;
    }
    db.Decrement(PromotionFilter(req.promotionId), now);
    ok := db.InsertEvent(ClickEvent(req, draws, site, now), inetValid);
    if !ok {
      return 500;
    }
    ok := db.InsertTransactions(ClickTransactions(db.wallets, req, draws, site, now));
    if !ok {
      return 500;
    }
    return 200;
  }

  // ---------------------------------------------------------------------------
  // Properties of the handler

  /** A missing or empty `hostToken` answers 400 and writes nothing. */
  lemma MissingTokenWritesNothing(t: Tables, req: ClickRequest, inetValid: string -> bool, draws: SequenceDraws, now: Millis)
    requires FalsyString(req.hostToken)
    ensures Click(t, req, inetValid, draws, now) == ClickOutcome(400, t)
  {
  }

  /** `ROBINHOOD` is replaced before any write: the request behaves as one from the platform user. */
  lemma RobinhoodIsPlatform(t: Tables, req: ClickRequest, inetValid: string -> bool, draws: SequenceDraws, now: Millis)
    requires req.userId == Some(ROBINHOOD)
    ensures Click(t, req, inetValid, draws, now) == Click(t, req.(userId := Some(PLATFORM_ID)), inetValid, draws, now)
  {
  }

  /** The handler answers one of 200, 400 and 500. */
  lemma StatusCodes(t: Tables, req: ClickRequest, inetValid: string -> bool, draws: SequenceDraws, now: Millis)
    ensures Click(t, req, inetValid, draws, now).status in {200, 400, 500}
  {
  }

  /** Viewer and host credits leave the wallet identities alone, so the wallet looked up later is the same. */
  lemma CreditKeepsWalletLookup(ws: seq<Wallet>, credited: Option<Uuid>, delta: Cents, now: Millis, user: Option<Uuid>)
    ensures WalletIdOf(CreditWallets(ws, credited, delta, now), user) == WalletIdOf(ws, user)
  {
    var r := CreditWallets(ws, credited, delta, now);
    assert forall i :: 0 <= i < |ws| ==> (WalletSelected(r[i], user) <==> WalletSelected(ws[i], user));
    FirstWalletIdsAgree(ws, r, user);
  }

  /** Two wallet tables with the same ids and owners row by row give the same `findFirst` wallet id. */
  lemma {:induction false} FirstWalletIdsAgree(a: seq<Wallet>, b: seq<Wallet>, user: Option<Uuid>)
    requires |a| == |b|
    requires forall i :: 0 <= i < |a| ==> a[i].wallet_id == b[i].wallet_id && a[i].user_id == b[i].user_id
    ensures WalletIdOf(a, user) == WalletIdOf(b, user)
    decreases |a|
  {
    if |a| > 0 && !WalletSelected(a[0], user) {
      FirstWalletIdsAgree(a[1..], b[1..], user);
      assert FirstWallet(a, user) == FirstWallet(a[1..], user);
      assert FirstWallet(b, user) == FirstWallet(b[1..], user);
    }
  }

  /**
   * A request that succeeds changes exactly this: wallets of the viewer gain
   * 3 cents, wallets of the host's owner gain 7 cents (none when the token is
   * unknown), the clicked promotion spends one impression (with both update
   * triggers applied), one click event and two ledger rows are appended.
   * Users, websites, preferences and the ORM-only tables are untouched.
   */
  lemma SuccessfulClick(t: Tables, req: ClickRequest, inetValid: string -> bool, draws: SequenceDraws, now: Millis)
    requires Click(t, req, inetValid, draws, now).status == 200
    ensures var r := Click(t, req, inetValid, draws, now).after;
      var site := WebsiteByToken(t.websites, req.hostToken.value);
      && !FalsyString(req.hostToken) && PromotionIdAccepted(req.promotionId)
      && r.wallets == HostCredited(CreditWallets(t.wallets, Viewer(req.userId), VIEWER_BONUS, now), site, now)
      && r.promotions == DecrementImpressions(t.promotions, PromotionFilter(req.promotionId), now)
      && r.events == t.events + [ClickEvent(req, draws, site, now)]
      && r.transactions == t.transactions + ClickTransactions(t.wallets, req, draws, site, now)
      && r == t.(wallets := r.wallets, promotions := r.promotions, events := r.events, transactions := r.transactions)
  {
    var site := WebsiteByToken(t.websites, req.hostToken.value);
    var w1 := CreditWallets(t.wallets, Viewer(req.userId), VIEWER_BONUS, now);
    var w2 := HostCredited(w1, site, now);
    CreditsKeepClickTransactions(t.wallets, req, draws, site, now);
    var t3 := t.(wallets := w2, promotions := DecrementImpressions(t.promotions, PromotionFilter(req.promotionId), now));
    var t4 := t3.(events := t3.events + [ClickEvent(req, draws, site, now)]);
    var xs := ClickTransactions(w2, req, draws, site, now);
    assert !FalsyString(req.hostToken) && BalancesNonNegative(w1) && BalancesNonNegative(w2);
    assert PromotionIdAccepted(req.promotionId) && EventAccepted(t3, ClickEvent(req, draws, site, now), inetValid);
    assert TransactionsAccepted(t4, xs);
    assert Click(t, req, inetValid, draws, now).after == t4.(transactions := t4.transactions + xs);
  }

  /** Both credits leave the ledger rows' target wallets as they were. */
  lemma CreditsKeepClickTransactions(ws: seq<Wallet>, req: ClickRequest, draws: SequenceDraws, site: Option<Website>, now: Millis)
    ensures ClickTransactions(HostCredited(CreditWallets(ws, Viewer(req.userId), VIEWER_BONUS, now), site, now), req, draws, site, now)
         == ClickTransactions(ws, req, draws, site, now)
  {
    var w1 := CreditWallets(ws, Viewer(req.userId), VIEWER_BONUS, now);
    CreditKeepsWalletLookup(ws, Viewer(req.userId), VIEWER_BONUS, now, Viewer(req.userId));
    CreditKeepsWalletLookup(ws, Viewer(req.userId), VIEWER_BONUS, now, OwnerOf(site));
    if site.Some? {
      CreditKeepsWalletLookup(w1, OwnerOf(site), HOST_PAYMENT, now, Viewer(req.userId));
      CreditKeepsWalletLookup(w1, OwnerOf(site), HOST_PAYMENT, now, OwnerOf(site));
    }
  }

  /** With an unknown host token no host is paid: only the viewer's wallets change. */
  lemma UnknownHostIsNotPaid(t: Tables, req: ClickRequest, inetValid: string -> bool, draws: SequenceDraws, now: Millis)
    requires !FalsyString(req.hostToken)
    requires forall i :: 0 <= i < |t.websites| ==> t.websites[i].verification_token != req.hostToken.value
    requires Click(t, req, inetValid, draws, now).status == 200
    ensures Click(t, req, inetValid, draws, now).after.wallets == CreditWallets(t.wallets, Viewer(req.userId), VIEWER_BONUS, now)
  {
  }

  /**
   * With no `userId` in the body the `where` filter is dropped: every wallet
   * gains the viewer bonus and the event has no viewer.
   */
  lemma MissingViewerCreditsEveryWallet(t: Tables, req: ClickRequest, inetValid: string -> bool, draws: SequenceDraws, now: Millis)
    requires req.userId.None? && Click(t, req, inetValid, draws, now).status == 200
    ensures var r := Click(t, req, inetValid, draws, now).after;
      forall i :: 0 <= i < |t.wallets| ==> r.wallets[i].balance >= t.wallets[i].balance + VIEWER_BONUS
    ensures Click(t, req, inetValid, draws, now).after.events[|t.events|].viewer_user_id.None?
  {
    SuccessfulClick(t, req, inetValid, draws, now);
    var w1 := CreditWallets(t.wallets, None, VIEWER_BONUS, now);
    HostCreditGrows(w1, WebsiteByToken(t.websites, req.hostToken.value), now);
  }

  /**
   * With no `promotion_id` in the body the decrement's filter is dropped:
   * every promotion spends one impression, and the event and both ledger rows
   * store their serial columns' sequence values instead of a promotion id.
   */
  lemma MissingPromotionDecrementsEvery(t: Tables, req: ClickRequest, inetValid: string -> bool, draws: SequenceDraws, now: Millis)
    requires req.promotionId.Undefined? && Click(t, req, inetValid, draws, now).status == 200
    ensures var r := Click(t, req, inetValid, draws, now).after;
      && |r.promotions| == |t.promotions|
      && forall i :: 0 <= i < |t.promotions| ==>
           r.promotions[i].remaining_impressions == t.promotions[i].remaining_impressions - 1
           && r.promotions[i].updated_at == now
    ensures var r := Click(t, req, inetValid, draws, now).after;
      && r.events[|t.events|].promoted_content_id == draws.event
      && r.transactions[|t.transactions|].content_id == draws.viewerTx
      && r.transactions[|t.transactions| + 1].content_id == draws.hostTx
  {
    SuccessfulClick(t, req, inetValid, draws, now);
    DecrementTouchesOnlyTarget(t.promotions, None, now);
  }

  /**
   * A `promotion_id` that is neither a number nor absent fails Prisma's
   * validation at the decrement: 500, with both credits already written and
   * nothing else changed.
   */
  lemma MalformedPromotionIdKeepsCredits(t: Tables, req: ClickRequest, inetValid: string -> bool, draws: SequenceDraws, now: Millis)
    requires !FalsyString(req.hostToken) && BalancesNonNegative(t.wallets)
    requires !PromotionIdAccepted(req.promotionId)
    ensures var o := Click(t, req, inetValid, draws, now);
      && o.status == 500
      && o.after == t.(wallets := HostCredited(CreditWallets(t.wallets, Viewer(req.userId), VIEWER_BONUS, now),
                                               WebsiteByToken(t.websites, req.hostToken.value), now))
  {
    var w1 := CreditWallets(t.wallets, Viewer(req.userId), VIEWER_BONUS, now);
    CreditKeepsBalances(t.wallets, Viewer(req.userId), VIEWER_BONUS, now);
    var site := WebsiteByToken(t.websites, req.hostToken.value);
    if site.Some? {
      CreditKeepsBalances(w1, OwnerOf(site), HOST_PAYMENT, now);
    }
  }

  /** The host credit never lowers a balance. */
  lemma HostCreditGrows(ws: seq<Wallet>, site: Option<Website>, now: Millis)
    ensures |HostCredited(ws, site, now)| == |ws|
    ensures forall i :: 0 <= i < |ws| ==> HostCredited(ws, site, now)[i].balance >= ws[i].balance
  {
  }

  /**
   * The unknown-token host payment is still recorded, addressed by
   * `findFirst({ where: { user_id: undefined } })`. With no filter and no
   * `orderBy` the database may return any wallet; under the model's
   * table-order reading of `findFirst` it is the first wallet, whose balance
   * did not receive the payment.
   */
  lemma UnknownHostPaymentAddressesFirstWallet(t: Tables, req: ClickRequest, inetValid: string -> bool, draws: SequenceDraws, now: Millis)
    requires !FalsyString(req.hostToken) && |t.wallets| > 0
    requires forall i :: 0 <= i < |t.websites| ==> t.websites[i].verification_token != req.hostToken.value
    requires Click(t, req, inetValid, draws, now).status == 200
    ensures Click(t, req, inetValid, draws, now).after.transactions[|t.transactions| + 1].to_wallet_id == Some(t.wallets[0].wallet_id)
  {
    SuccessfulClick(t, req, inetValid, draws, now);
  }

  /** A failure after the first write answers 500 and keeps the viewer credit. */
  lemma LateFailureKeepsEarlierWrites(t: Tables, req: ClickRequest, inetValid: string -> bool, draws: SequenceDraws, now: Millis)
    requires !FalsyString(req.hostToken)
    requires BalancesNonNegative(t.wallets)
    requires PromotionIdAccepted(req.promotionId)
    requires !inetValid(ClientIp(req))
    ensures var o := Click(t, req, inetValid, draws, now);
      o.status == 500
      && o.after.wallets == HostCredited(CreditWallets(t.wallets, Viewer(req.userId), VIEWER_BONUS, now),
                                         WebsiteByToken(t.websites, req.hostToken.value), now)
      && o.after.promotions == DecrementImpressions(t.promotions, PromotionFilter(req.promotionId), now)
      && o.after.events == t.events
  {
    var w1 := CreditWallets(t.wallets, Viewer(req.userId), VIEWER_BONUS, now);
    CreditKeepsBalances(t.wallets, Viewer(req.userId), VIEWER_BONUS, now);
    var site := WebsiteByToken(t.websites, req.hostToken.value);
    if site.Some? {
      CreditKeepsBalances(w1, OwnerOf(site), HOST_PAYMENT, now);
    }
  }

  /** The impression decrement keeps the promotions' primary key unique. */
  lemma DecrementKeepsPromotionIds(ps: seq<Promotion>, id: Option<int>, now: Millis)
    requires UniquePromotionIds(ps)
    ensures UniquePromotionIds(DecrementImpressions(ps, id, now))
  {
    var qs := DecrementImpressions(ps, id, now);
    forall i, j | 0 <= i < j < |qs| ensures qs[i].promotion_id != qs[j].promotion_id {
      assert qs[i].promotion_id == ps[i].promotion_id;
      assert qs[j].promotion_id == ps[j].promotion_id;
    }
  }

  /** The handler never breaks a constraint of the schema. */
  lemma ClickKeepsConsistency(t: Tables, req: ClickRequest, inetValid: string -> bool, draws: SequenceDraws, now: Millis)
    requires Consistent(t)
    ensures Consistent(Click(t, req, inetValid, draws, now).after)
  {
    if !FalsyString(req.hostToken) {
      var w1 := CreditWallets(t.wallets, Viewer(req.userId), VIEWER_BONUS, now);
      var site := WebsiteByToken(t.websites, req.hostToken.value);
      var w2 := HostCredited(w1, site, now);
      if BalancesNonNegative(w1) && BalancesNonNegative(w2) {
        CreditedKeepsConsistency(t, w2);
        if PromotionIdAccepted(req.promotionId) {
          DecrementKeepsPromotionIds(t.promotions, PromotionFilter(req.promotionId), now);
          var t3 := t.(wallets := w2, promotions := DecrementImpressions(t.promotions, PromotionFilter(req.promotionId), now));
          var t4 := t3.(events := t3.events + [ClickEvent(req, draws, site, now)]);
          assert Consistent(t4);
          AppendKeepsConsistency(t4, ClickTransactions(w2, req, draws, site, now));
        }
      }
    }
  }

  /** A credit keeps every wallet's id, so the wallet key stays unique. */
  lemma CreditedKeepsConsistency(t: Tables, w: seq<Wallet>)
    requires Consistent(t) && BalancesNonNegative(w) && |w| == |t.wallets|
    requires forall i :: 0 <= i < |w| ==> w[i].wallet_id == t.wallets[i].wallet_id
    ensures Consistent(t.(wallets := w))
  {
    assert UniqueWalletIds(w) by {
      forall i, j | 0 <= i < j < |w| ensures w[i].wallet_id != w[j].wallet_id {
        assert w[i].wallet_id == t.wallets[i].wallet_id;
      }
    }
  }

  /** Appending ledger rows with positive amounts keeps the amount check. */
  lemma AppendKeepsConsistency(t: Tables, xs: seq<Transaction>)
    requires Consistent(t) && AmountsPositive(xs)
    ensures Consistent(t.(transactions := t.transactions + xs))
  {
    var ys := t.transactions + xs;
    forall i | 0 <= i < |ys| ensures ys[i].amount > 0 {
      if i >= |t.transactions| { assert ys[i] == xs[i - |t.transactions|]; }
    }
  }
}
