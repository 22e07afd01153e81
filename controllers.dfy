/**
 * The dashboard controllers: looking a website up by its verification
 * token, the wallet view with its transaction history, the first-login
 * profile sync, promotion creation with its ownership check, and the
 * article list of an owned website.
 */
module Controllers {
  import opened Wrappers
  import opened Json
  import opened Text
  import opened Schema
  import opened Database

  // ---------------------------------------------------------------------------
  // verifyWebsite

  const TOKEN_REQUIRED := "Verification token is required."
  const TOKEN_INVALID := "Invalid verification token."

  /** `verifyWebsite`: reads `websites` only. */
  function VerifyWebsite(t: Tables, token: string): (r: Outcome<Website>)
    ensures token == "" <==> r == Thrown(TOKEN_REQUIRED)
    ensures token != "" && (forall i :: 0 <= i < |t.websites| ==> t.websites[i].verification_token != token)
            <==> r == Thrown(TOKEN_INVALID)
    ensures r.Ok? ==> r.value in t.websites && r.value.verification_token == token
  {
    if token == "" then Thrown(TOKEN_REQUIRED)
    else match WebsiteByToken(t.websites, token)
      case None => Thrown(TOKEN_INVALID)
      case Some(w) => Ok(w)
  }

  /** Under the UNIQUE constraint on the token, the website found is the only one with it. */
  lemma VerifiedWebsiteIsUnique(t: Tables, token: string, i: int)
    requires UniqueWebsiteKeys(t.websites)
    requires VerifyWebsite(t, token).Ok?
    requires 0 <= i < |t.websites| && t.websites[i].verification_token == token
    ensures t.websites[i] == VerifyWebsite(t, token).value
  {
    var w := VerifyWebsite(t, token).value;
    var k :| 0 <= k < |t.websites| && t.websites[k] == w;
    if k < i {
      assert false;
    } else if i < k {
      assert false;
    }
  }

  // ---------------------------------------------------------------------------
  // GetWalletData

  const NO_WALLET := "Wallet not found for this user."
  const HISTORY_LENGTH := 20

  datatype WalletData = WalletData(balance: Cents, transactions: seq<Transaction>)

  /** The OR filter: the transaction leaves or enters the wallet. */
  predicate Touches(x: Transaction, walletId: Uuid) {
    x.from_wallet_id == Some(walletId) || x.to_wallet_id == Some(walletId)
  }

  function TouchingWallet(ts: seq<Transaction>, walletId: Uuid): (r: seq<Transaction>)
    ensures forall i :: 0 <= i < |r| ==> Touches(r[i], walletId)
    ensures forall x :: x in ts && Touches(x, walletId) <==> x in r
  {
    if ts == [] then []
    else
      var rest := TouchingWallet(ts[1..], walletId);
      assert ts == [ts[0]] + ts[1..];
      if Touches(ts[0], walletId) then [ts[0]] + rest else rest
  }

  predicate NewestFirst(xs: seq<Transaction>) {
    forall i, j :: 0 <= i < j < |xs| ==> xs[i].created_at >= xs[j].created_at
  }

  function InsertByDate(x: Transaction, s: seq<Transaction>): (r: seq<Transaction>)
    ensures |r| == |s| + 1
  {
    if s == [] || x.created_at >= s[0].created_at then [x] + s
    else [s[0]] + InsertByDate(x, s[1..])
  }

  lemma {:induction false} InsertByDateElements(x: Transaction, s: seq<Transaction>)
    ensures multiset(InsertByDate(x, s)) == multiset(s) + multiset{x}
    ensures forall i :: 0 <= i < |s| + 1 ==> InsertByDate(x, s)[i] == x || InsertByDate(x, s)[i] in s
  {
    if s != [] && x.created_at < s[0].created_at {
      InsertByDateElements(x, s[1..]);
      assert s == [s[0]] + s[1..];
    }
  }

  lemma {:induction false} InsertByDateSorted(x: Transaction, s: seq<Transaction>)
    requires NewestFirst(s)
    ensures NewestFirst(InsertByDate(x, s))
  {
    if s != [] && x.created_at < s[0].created_at {
      var rest := InsertByDate(x, s[1..]);
      InsertByDateSorted(x, s[1..]);
      InsertByDateElements(x, s[1..]);
      var r := [s[0]] + rest;
      forall i | 0 < i < |r| ensures s[0].created_at >= r[i].created_at {
        if r[i] != x {
          var j :| 0 <= j < |s[1..]| && s[1..][j] == r[i];
          assert s[j + 1] == r[i];
        }
      }
      assert InsertByDate(x, s) == r;
    }
  }

  /** `orderBy: { created_at: 'desc' }`; rows with equal timestamps keep no particular order in SQL. */
  function ByDateDesc(xs: seq<Transaction>): (r: seq<Transaction>)
    ensures |r| == |xs|
  {
    if xs == [] then [] else InsertByDate(xs[0], ByDateDesc(xs[1..]))
  }

  /** The sort orders newest first and loses or invents no row. */
  lemma {:induction false} ByDateDescSorts(xs: seq<Transaction>)
    ensures NewestFirst(ByDateDesc(xs)) && multiset(ByDateDesc(xs)) == multiset(xs)
  {
    if xs != [] {
      ByDateDescSorts(xs[1..]);
      InsertByDateSorted(xs[0], ByDateDesc(xs[1..]));
      InsertByDateElements(xs[0], ByDateDesc(xs[1..]));
      assert xs == [xs[0]] + xs[1..];
    }
  }

  /** The history query: matching rows, newest first, `take: 20`. */
  function History(ts: seq<Transaction>, walletId: Uuid): (r: seq<Transaction>)
    ensures |r| == if |TouchingWallet(ts, walletId)| <= HISTORY_LENGTH then |TouchingWallet(ts, walletId)| else HISTORY_LENGTH
    ensures r == ByDateDesc(TouchingWallet(ts, walletId))[..|r|]
  {
    var sorted := ByDateDesc(TouchingWallet(ts, walletId));
    sorted[..if |sorted| <= HISTORY_LENGTH then |sorted| else HISTORY_LENGTH]
  }

  /** `GetWalletData(user_id)`: reads `wallets` and `transactions` only. */
  function WalletView(t: Tables, userId: Uuid): (r: Outcome<WalletData>)
    ensures r.Thrown? <==> forall i :: 0 <= i < |t.wallets| ==> t.wallets[i].user_id != userId
    ensures r.Thrown? ==> r.message == NO_WALLET
  {
    match FirstWallet(t.wallets, Some(userId))
    case None => Thrown(NO_WALLET)
    case Some(w) => Ok(WalletData(w.balance, History(t.transactions, w.wallet_id)))
  }

  /**
   * The history holds at most 20 transactions of the wallet, newest first,
   * and with no more than 20 matching rows it holds all of them.
   */
  lemma HistoryShape(ts: seq<Transaction>, walletId: Uuid)
    ensures var h := History(ts, walletId);
      && |h| <= HISTORY_LENGTH
      && (forall i :: 0 <= i < |h| ==> Touches(h[i], walletId))
      && NewestFirst(h)
      && multiset(h) <= multiset(TouchingWallet(ts, walletId))
      && (|TouchingWallet(ts, walletId)| <= HISTORY_LENGTH ==> multiset(h) == multiset(TouchingWallet(ts, walletId)))
  {
    var matching := TouchingWallet(ts, walletId);
    var sorted := ByDateDesc(matching);
    ByDateDescSorts(matching);
    var n := if |sorted| <= HISTORY_LENGTH then |sorted| else HISTORY_LENGTH;
    var h := sorted[..n];
    assert History(ts, walletId) == h;
    PrefixMultiset(sorted, n);
    forall i | 0 <= i < |h| ensures Touches(h[i], walletId) {
      assert h[i] in multiset(sorted);
      assert h[i] in matching;
    }
    if |matching| <= HISTORY_LENGTH {
      assert h == sorted;
    }
  }

  /** A prefix holds no element more often than the whole sequence. */
  lemma PrefixMultiset<T>(s: seq<T>, n: int)
    requires 0 <= n <= |s|
    ensures multiset(s[..n]) <= multiset(s)
  {
    assert s == s[..n] + s[n..];
    assert multiset(s) == multiset(s[..n]) + multiset(s[n..]);
  }

  /** What the history leaves out is never newer than anything it shows: it shows the most recent rows. */
  lemma HistoryIsMostRecent(ts: seq<Transaction>, walletId: Uuid, x: Transaction)
    requires x in multiset(TouchingWallet(ts, walletId)) - multiset(History(ts, walletId))
    ensures forall i :: 0 <= i < |History(ts, walletId)| ==> x.created_at <= History(ts, walletId)[i].created_at
  {
    var matching := TouchingWallet(ts, walletId);
    var sorted := ByDateDesc(matching);
    ByDateDescSorts(matching);
    var n := if |sorted| <= HISTORY_LENGTH then |sorted| else HISTORY_LENGTH;
    assert History(ts, walletId) == sorted[..n];
    InDroppedSuffix(sorted, n, x);
    var j :| n <= j < |sorted| && sorted[j] == x;
    forall i | 0 <= i < n ensures x.created_at <= sorted[..n][i].created_at {
      assert sorted[..n][i] == sorted[i];
    }
  }

  /** An element counted in `s` more often than in `s[..n]` occurs at or after position `n`. */
  lemma InDroppedSuffix<T>(s: seq<T>, n: int, x: T)
    requires 0 <= n <= |s| && x in multiset(s) - multiset(s[..n])
    ensures exists j :: n <= j < |s| && s[j] == x
  {
    assert s == s[..n] + s[n..];
    assert multiset(s) == multiset(s[..n]) + multiset(s[n..]);
    assert x in multiset(s[n..]);
    var j :| 0 <= j < |s[n..]| && s[n..][j] == x;
    assert s[n + j] == x;
  }

  /** The balance shown is that of the user's first wallet, and nothing is written. */
  lemma WalletViewBalance(t: Tables, userId: Uuid)
    requires WalletView(t, userId).Ok?
    ensures exists i :: 0 <= i < |t.wallets| && t.wallets[i].user_id == userId
                        && t.wallets[i].balance == WalletView(t, userId).value.balance
                        && forall j :: 0 <= j < i ==> t.wallets[j].user_id != userId
  {
    var w := FirstWallet(t.wallets, Some(userId)).value;
    var i :| 0 <= i < |t.wallets| && t.wallets[i] == w
             && forall j :: 0 <= j < i ==> !WalletSelected(t.wallets[j], Some(userId));
    assert t.wallets[i].user_id == userId;
  }

  // ---------------------------------------------------------------------------
  // SyncUserProfileOnFirstLogin

  /** The state after the sync: a `viewer` row when the id is given and unknown. */
  function Synced(t: Tables, userId: Option<string>, now: Millis): (r: Tables)
    ensures FalsyString(userId) ==> r == t
    ensures !FalsyString(userId) && HasUser(t.users, userId.value) ==> r == t
    ensures !FalsyString(userId) && !HasUser(t.users, userId.value) ==>
      r == t.(users := t.users + [User(userId.value, Viewer, now)])
    ensures !FalsyString(userId) ==> HasUser(r.users, userId.value)
  {
    if FalsyString(userId) || HasUser(t.users, userId.value) then t
    else
      var r := t.(users := t.users + [User(userId.value, Viewer, now)]);
      assert r.users[|t.users|].user_id == userId.value;
      r
  }

  /** Running the sync twice is the same as running it once. */
  lemma SyncIdempotent(t: Tables, userId: Option<string>, now: Millis, later: Millis)
    ensures Synced(Synced(t, userId, now), userId, later) == Synced(t, userId, now)
  {
  }

  /** The sync never breaks the users' primary key. */
  lemma SyncKeepsUserKey(t: Tables, userId: Option<string>, now: Millis)
    requires UniqueUserIds(t.users)
    ensures UniqueUserIds(Synced(t, userId, now).users)
  {
  }

  method SyncUserProfileOnFirstLogin(db: Db, userId: Option<string>, now: Millis)
    modifies db
    ensures db.State() == Synced(old(db.State()), userId, now)
  {
    if userId.Some? && userId.value != "" {
      var inserted := db.InsertUser(User(userId.value, Viewer, now));
    }
  }

  // ---------------------------------------------------------------------------
  // createPromotion

  /** The word the promotions route looks for to answer 403. */
  const FORBIDDEN := "Forbidden"
  const NOT_OWNER := FORBIDDEN + ": You do not own this content or it does not exist."
  /** Stands for the ORM's validation error on a status outside the enum. */
  const BAD_STATUS := "Invalid value for enum promotion_status"

  /** The `promotion_status` enum's spelling of each value. */
  function ParseStatus(s: string): (r: Option<PromotionStatus>)
    ensures r.Some? <==> s in {"active", "inactive", "pending"}
  {
    if s == "active" then Some(Active)
    else if s == "inactive" then Some(Inactive)
    else if s == "pending" then Some(Pending)
    else None
  }

  /** Some content item with that id sits on a website owned by `owner`. */
  predicate OwnsContent(t: Tables, contentId: string, owner: Uuid) {
    exists i, j :: 0 <= i < |t.contentItems| && 0 <= j < |t.websites|
      && t.contentItems[i].content_id == contentId
      && t.websites[j].website_id == t.contentItems[i].website_id
      && t.websites[j].owner_id == owner
  }

  datatype Created = Created(result: Outcome<ContentPromotion>, after: Tables)

  /** `createPromotion`: the ownership check, then one insert with the status defaulting to `active`. */
  function CreatePromotion(t: Tables, contentId: string, budget: Cents, status: Option<string>, owner: Uuid): (c: Created)
    ensures !OwnsContent(t, contentId, owner) ==> c == Created(Thrown(NOT_OWNER), t)
    ensures c.result.Thrown? ==> c.after == t
    ensures c.result.Ok? ==>
      && c.result.value.content_id == contentId && c.result.value.budget == budget
      && c.after == t.(contentPromotions := t.contentPromotions + [c.result.value])
  {
    if !OwnsContent(t, contentId, owner) then Created(Thrown(NOT_OWNER), t)
    else match ParseStatus(if FalsyString(status) then "active" else status.value)
      case None => Created(Thrown(BAD_STATUS), t)
      case Some(s) =>
        var p := ContentPromotion(contentId, budget, s, 0);
        Created(Ok(p), t.(contentPromotions := t.contentPromotions + [p]))
  }

  /** A missing or empty status is stored as `active`; a valid given status is stored as given. */
  lemma CreatedStatus(t: Tables, contentId: string, budget: Cents, status: Option<string>, owner: Uuid)
    requires OwnsContent(t, contentId, owner)
    ensures FalsyString(status) ==> CreatePromotion(t, contentId, budget, status, owner).result.value.status == Active
    ensures !FalsyString(status) && ParseStatus(status.value).Some? ==>
      CreatePromotion(t, contentId, budget, status, owner).result.value.status == ParseStatus(status.value).value
    ensures !FalsyString(status) && ParseStatus(status.value).None? ==>
      CreatePromotion(t, contentId, budget, status, owner).result == Thrown(BAD_STATUS)
  {
  }

  method HandleCreatePromotion(db: Db, contentId: string, budget: Cents, status: Option<string>, owner: Uuid)
    returns (r: Outcome<ContentPromotion>)
    modifies db
    ensures Created(r, db.State()) == CreatePromotion(old(db.State()), contentId, budget, status, owner)
  {
    if !OwnsContent(db.State(), contentId, owner) {
      return Thrown(NOT_OWNER);
    }
    var s := ParseStatus(if status.None? || status.value == "" then "active" else status.value);
    if s.None? {
      return Thrown(BAD_STATUS);
    }
    var p := ContentPromotion(contentId, budget, s.value, 0);
    db.InsertContentPromotion(p);
    r := Ok(p);
  }

  // ---------------------------------------------------------------------------
  // GetArticlesByWebsite

  const NOT_SITE_OWNER := FORBIDDEN + ": You do not own this website."

  datatype PromotionSummary = PromotionSummary(status: PromotionStatus, budget: Cents, creditsSpent: Cents)
  datatype ArticleSummary = ArticleSummary(id: string, title: string, promotions: seq<PromotionSummary>)

  /** The fields selected for one promotion: `status`, `budget`, `credits_spent`. */
  function Summarize(p: ContentPromotion): PromotionSummary {
    PromotionSummary(p.status, p.budget, p.credits_spent)
  }

  /** The `promotions` relation of one content item: its rows projected, in table order. */
  function PromotionsOf(ps: seq<ContentPromotion>, contentId: string): (r: seq<PromotionSummary>)
    ensures |r| <= |ps|
    ensures forall i :: 0 <= i < |ps| && ps[i].content_id == contentId ==> Summarize(ps[i]) in r
    ensures forall x :: x in r ==> exists i :: 0 <= i < |ps| && ps[i].content_id == contentId && x == Summarize(ps[i])
    decreases |ps|
  {
    if ps == [] then []
    else
      var rest := PromotionsOf(ps[1..], contentId);
      assert forall i :: 1 <= i < |ps| ==> ps[i] == ps[1..][i - 1];
      assert forall x :: x in rest ==> exists i :: 0 <= i < |ps| && ps[i].content_id == contentId && x == Summarize(ps[i]) by {
        forall x | x in rest ensures exists i :: 0 <= i < |ps| && ps[i].content_id == contentId && x == Summarize(ps[i]) {
          var j :| 0 <= j < |ps[1..]| && ps[1..][j].content_id == contentId && x == Summarize(ps[1..][j]);
          assert ps[j + 1] == ps[1..][j];
        }
      }
      if ps[0].content_id == contentId then [Summarize(ps[0])] + rest
      else rest
  }

  /** The projection looks at each row on its own, so it keeps the table order. */
  lemma {:induction false} PromotionsOfAppend(a: seq<ContentPromotion>, b: seq<ContentPromotion>, contentId: string)
    ensures PromotionsOf(a + b, contentId) == PromotionsOf(a, contentId) + PromotionsOf(b, contentId)
    decreases |a|
  {
    if a != [] {
      var ab := a + b;
      assert ab[0] == a[0] && ab[1..] == a[1..] + b;
      PromotionsOfAppend(a[1..], b, contentId);
      var tail, right := PromotionsOf(a[1..], contentId), PromotionsOf(b, contentId);
      if a[0].content_id == contentId {
        assert [Summarize(a[0])] + (tail + right) == ([Summarize(a[0])] + tail) + right;
      }
    } else {
      assert a + b == b;
    }
  }

  function ItemsOf(items: seq<ContentItem>, websiteId: Uuid): (r: seq<ContentItem>)
    ensures forall i :: 0 <= i < |r| ==> r[i].website_id == websiteId
    ensures forall x :: x in r <==> x in items && x.website_id == websiteId
  {
    if items == [] then []
    else
      var rest := ItemsOf(items[1..], websiteId);
      assert forall x :: x in items <==> x == items[0] || x in items[1..];
      if items[0].website_id == websiteId then [items[0]] + rest else rest
  }

  /** The filter looks at each row on its own, so it keeps every copy of a row and the table order. */
  lemma {:induction false} ItemsOfAppend(a: seq<ContentItem>, b: seq<ContentItem>, websiteId: Uuid)
    ensures ItemsOf(a + b, websiteId) == ItemsOf(a, websiteId) + ItemsOf(b, websiteId)
    decreases |a|
  {
    if a == [] {
      assert a + b == b;
    } else {
      var head := if a[0].website_id == websiteId then [a[0]] else [];
      calc {
        ItemsOf(a + b, websiteId);
        { assert a + b == [a[0]] + (a[1..] + b); ItemsOfCons(a[0], a[1..] + b, websiteId); }
        head + ItemsOf(a[1..] + b, websiteId);
        { ItemsOfAppend(a[1..], b, websiteId); }
        head + (ItemsOf(a[1..], websiteId) + ItemsOf(b, websiteId));
        (head + ItemsOf(a[1..], websiteId)) + ItemsOf(b, websiteId);
        { assert a == [a[0]] + a[1..]; ItemsOfCons(a[0], a[1..], websiteId); }
        ItemsOf(a, websiteId) + ItemsOf(b, websiteId);
      }
    }
  }

  lemma ItemsOfCons(x: ContentItem, t: seq<ContentItem>, websiteId: Uuid)
    ensures ItemsOf([x] + t, websiteId) == (if x.website_id == websiteId then [x] else []) + ItemsOf(t, websiteId)
  {
    assert ([x] + t)[0] == x && ([x] + t)[1..] == t;
  }

  predicate OwnsWebsite(t: Tables, websiteId: Uuid, owner: Uuid) {
    exists j :: 0 <= j < |t.websites| && t.websites[j].website_id == websiteId && t.websites[j].owner_id == owner
  }

  /** `GetArticlesByWebsite`: reads only. */
  function ArticlesByWebsite(t: Tables, websiteId: Uuid, owner: Uuid): (r: Outcome<seq<ArticleSummary>>)
    ensures r.Thrown? <==> !OwnsWebsite(t, websiteId, owner)
    ensures r.Thrown? ==> r.message == NOT_SITE_OWNER
    ensures r.Ok? ==> |r.value| == |ItemsOf(t.contentItems, websiteId)|
    ensures r.Ok? ==> forall i :: 0 <= i < |r.value| ==>
      var item := ItemsOf(t.contentItems, websiteId)[i];
      r.value[i] == ArticleSummary(item.content_id, item.title, PromotionsOf(t.contentPromotions, item.content_id))
  {
    if !OwnsWebsite(t, websiteId, owner) then Thrown(NOT_SITE_OWNER)
    else
      var items := ItemsOf(t.contentItems, websiteId);
      Ok(seq(|items|, i requires 0 <= i < |items| =>
        ArticleSummary(items[i].content_id, items[i].title, PromotionsOf(t.contentPromotions, items[i].content_id))))
  }

  /** Every listed article is a content item of the requested website. */
  lemma ArticlesBelongToWebsite(t: Tables, websiteId: Uuid, owner: Uuid, i: int)
    requires ArticlesByWebsite(t, websiteId, owner).Ok?
    requires 0 <= i < |ArticlesByWebsite(t, websiteId, owner).value|
    ensures exists k ::
      && 0 <= k < |t.contentItems|
      && t.contentItems[k].website_id == websiteId
      && t.contentItems[k].content_id == ArticlesByWebsite(t, websiteId, owner).value[i].id
  {
    var item := ItemsOf(t.contentItems, websiteId)[i];
    assert item in ItemsOf(t.contentItems, websiteId);
    var k :| 0 <= k < |t.contentItems| && t.contentItems[k] == item;
  }
}
