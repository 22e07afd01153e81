/**
 * The relational schema created by the initial migration: one datatype per
 * table row, the enum types, the column defaults, the check constraints and
 * unique keys, and the row-level triggers. Money columns (`numeric(10,2)`)
 * are integer cents, timestamps are integer milliseconds and `boost`
 * (`numeric`, default 1.0) is an integer in hundredths.
 */
module Schema {
  import opened Wrappers

  type Uuid = string
  type Cents = int
  type Millis = int

  datatype UserRole = Promoter | Host | Viewer | Admin
  datatype WebsiteStatus = SiteActive | SiteInactive | SiteBlocked
  datatype PromotionStatus = Active | Inactive | Pending
  datatype EventType = Click | View
  datatype TransactionType = PromotionFee | PlatformFee | Deposit | Withdrawal | ViewerBonus | HostPayment

  datatype User = User(user_id: Uuid, role: UserRole, updated_at: Millis)

  /** `websites`: note that this table has no `updated_at` column. */
  datatype Website = Website(
    website_id: Uuid,
    owner_id: Uuid,
    domain_name: string,
    rss_feed_url: Option<string>,
    status: WebsiteStatus,
    verification_token: Uuid,
    verification_token_expires_at: Option<Millis>,
    verified_at: Option<Millis>,
    created_at: Millis)

  /** `promotions`, without the `embedding` vector and `s3_path`. */
  datatype Promotion = Promotion(
    promotion_id: int,
    title: string,
    image_url: string,
    summary: string,
    tags: seq<string>,
    categories: string,
    article_url: string,
    budget: Cents,
    remaining_impressions: int,
    boost: int,
    created_at: Millis,
    updated_at: Millis,
    promoter_id: Uuid,
    status: PromotionStatus,
    website_id: Uuid)

  /**
   * `events`. `promoted_content_id` is declared `serial`, which PostgreSQL
   * makes NOT NULL, so it is a plain integer here.
   */
  datatype Event = Event(
    promoted_content_id: int,
    host_website_id: Option<Uuid>,
    viewer_user_id: Option<Uuid>,
    event_type: EventType,
    ip_address: Option<string>,
    user_agent: Option<string>,
    created_at: Millis)

  datatype Wallet = Wallet(wallet_id: Uuid, user_id: Uuid, balance: Cents, updated_at: Millis)

  /**
   * `transactions`: note that this table has no `updated_at` column either,
   * and that `content_id` is `serial`, hence NOT NULL.
   */
  datatype Transaction = Transaction(
    content_id: int,
    from_wallet_id: Option<Uuid>,
    to_wallet_id: Option<Uuid>,
    amount: Cents,
    transaction_type: TransactionType,
    created_at: Millis)

  datatype Preference = Preference(user_id: Uuid, interests: seq<string>, updated_at: Millis)

  /**
   * Rows of the ORM schema that the promotion and article controllers are
   * written against: `content_items` and promotions keyed by `content_id`
   * carrying `credits_spent`. Neither exists in the migration.
   */
  datatype ContentItem = ContentItem(content_id: string, website_id: Uuid, title: string)
  datatype ContentPromotion = ContentPromotion(
    content_id: string, budget: Cents, status: PromotionStatus, credits_spent: Cents)

  /** Default `boost` of 1.0, in hundredths. */
  const DEFAULT_BOOST: int := 100

  /** The purge job's `INTERVAL '30 days'`, in milliseconds. */
  const PURGE_AGE: Millis := 30 * 24 * 60 * 60 * 1000

  /** The database error raised when a trigger assigns a column its table lacks. */
  const NO_UPDATED_AT: string := "record \"new\" has no field \"updated_at\""

  /**
   * A row of `promotions` as an INSERT that names only the given columns
   * stores it: `remaining_impressions` 0, `boost` 1.0, `status` pending and
   * both timestamps `now`. No trigger runs on INSERT.
   */
  function NewPromotion(
    promotion_id: int, title: string, image_url: string, summary: string, tags: seq<string>,
    categories: string, article_url: string, budget: Cents, promoter_id: Uuid, website_id: Uuid,
    now: Millis): (p: Promotion)
    ensures p.status == Pending && p.remaining_impressions == 0 && p.boost == DEFAULT_BOOST
    ensures p.created_at == now && p.updated_at == now
    ensures p.promotion_id == promotion_id && p.budget == budget && p.website_id == website_id
  {
    Promotion(promotion_id, title, image_url, summary, tags, categories, article_url, budget,
              0, DEFAULT_BOOST, now, now, promoter_id, Pending, website_id)
  }

  /** A row of `websites` as an INSERT that leaves `status` and `verified_at` to their defaults. */
  function NewWebsite(
    website_id: Uuid, owner_id: Uuid, domain_name: string, rss_feed_url: Option<string>,
    verification_token: Uuid, expires_at: Option<Millis>, now: Millis): (w: Website)
    ensures w.status == SiteInactive && w.verified_at.None? && w.created_at == now
    ensures w.website_id == website_id && w.owner_id == owner_id && w.domain_name == domain_name
    ensures w.verification_token == verification_token && w.verification_token_expires_at == expires_at
  {
    Website(website_id, owner_id, domain_name, rss_feed_url, SiteInactive, verification_token,
            expires_at, None, now)
  }

  // ---------------------------------------------------------------------------
  // BEFORE UPDATE row triggers

  /** `auto_inactivate_promotions`: a non-positive impression count forces `inactive`. */
  function AutoInactivate(p: Promotion): (q: Promotion)
    ensures q.remaining_impressions <= 0 ==> q.status == Inactive
    ensures q.remaining_impressions > 0 ==> q == p
    ensures q == p.(status := q.status)
  {
    if p.remaining_impressions <= 0 && p.status != Inactive then p.(status := Inactive) else p
  }

  /**
   * Both BEFORE UPDATE triggers of `promotions` applied to the proposed row:
   * `auto_inactivate_trigger` and `promotions_update_trigger` (they touch
   * disjoint columns, so their firing order does not matter).
   */
  function PromotionUpdated(proposed: Promotion, now: Millis): (q: Promotion)
    ensures q.updated_at == now
    ensures q.remaining_impressions <= 0 ==> q.status == Inactive
    ensures q.remaining_impressions > 0 ==> q.status == proposed.status
    ensures q == proposed.(status := q.status, updated_at := now)
  {
    AutoInactivate(proposed).(updated_at := now)
  }

  /** `wallets_update_trigger`: `update_updated_at` stamps the row. */
  function WalletUpdated(proposed: Wallet, now: Millis): (w: Wallet)
    ensures w.updated_at == now
    ensures w.(updated_at := proposed.updated_at) == proposed
  {
    proposed.(updated_at := now)
  }

  /**
   * `websites_update_trigger`: `update_updated_at` assigns `NEW.updated_at`,
   * which `websites` does not have, so the database rejects every UPDATE of
   * a websites row and the statement changes nothing.
   */
  function WebsiteUpdated(proposed: Website, now: Millis): (r: Outcome<Website>)
    ensures r == Thrown(NO_UPDATED_AT)
  {
    Thrown(NO_UPDATED_AT)
  }

  // ---------------------------------------------------------------------------
  // Constraints

  /** `CHECK (balance >= 0)` on every wallet. */
  predicate BalancesNonNegative(ws: seq<Wallet>) {
    forall i :: 0 <= i < |ws| ==> ws[i].balance >= 0
  }

  /** `CHECK (amount > 0)` on every transaction. */
  predicate AmountsPositive(ts: seq<Transaction>) {
    forall i :: 0 <= i < |ts| ==> ts[i].amount > 0
  }

  predicate UniqueUserIds(us: seq<User>) {
    forall i, j :: 0 <= i < j < |us| ==> us[i].user_id != us[j].user_id
  }

  /** Primary key `website_id`, UNIQUE `domain_name` and UNIQUE `verification_token`. */
  predicate UniqueWebsiteKeys(ws: seq<Website>) {
    forall i, j :: 0 <= i < j < |ws| ==>
      ws[i].website_id != ws[j].website_id
      && ws[i].domain_name != ws[j].domain_name
      && ws[i].verification_token != ws[j].verification_token
  }

  predicate UniquePromotionIds(ps: seq<Promotion>) {
    forall i, j :: 0 <= i < j < |ps| ==> ps[i].promotion_id != ps[j].promotion_id
  }

  predicate UniqueWalletIds(ws: seq<Wallet>) {
    forall i, j :: 0 <= i < j < |ws| ==> ws[i].wallet_id != ws[j].wallet_id
  }

  /** UNIQUE `user_preferences.user_id`. */
  predicate UniquePreferenceUsers(ps: seq<Preference>) {
    forall i, j :: 0 <= i < j < |ps| ==> ps[i].user_id != ps[j].user_id
  }

  // ---------------------------------------------------------------------------
  // The daily purge job

  /** The WHERE clause of `delete_old_inactive_promotions`. */
  predicate Purgeable(p: Promotion, now: Millis) {
    p.status == Inactive && p.updated_at < now - PURGE_AGE
  }

  /** The promotions the purge keeps, in table order. */
  function KeptPromotions(ps: seq<Promotion>, now: Millis): (r: seq<Promotion>)
    ensures forall p :: p in r <==> p in ps && !Purgeable(p, now)
    ensures |r| <= |ps|
  {
    if ps == [] then []
    else if Purgeable(ps[0], now) then KeptPromotions(ps[1..], now)
    else [ps[0]] + KeptPromotions(ps[1..], now)
  }

  /** The ids the purge deletes. */
  function PurgedIds(ps: seq<Promotion>, now: Millis): (ids: set<int>)
    ensures forall id :: id in ids <==> exists i :: 0 <= i < |ps| && ps[i].promotion_id == id && Purgeable(ps[i], now)
  {
    set i | 0 <= i < |ps| && Purgeable(ps[i], now) :: ps[i].promotion_id
  }

  /**
   * Some event or transaction references a promotion the purge deletes. Its
   * `ON DELETE SET NULL` action would then write NULL into a NOT NULL
   * (`serial`) column, so the DELETE statement fails as a whole.
   */
  predicate PurgeBlocked(es: seq<Event>, ts: seq<Transaction>, gone: set<int>) {
    || (exists i :: 0 <= i < |es| && es[i].promoted_content_id in gone)
    || (exists i :: 0 <= i < |ts| && ts[i].content_id in gone)
  }

  /** An inserted promotion keeps `pending` although its impression count is 0: no trigger fires on INSERT. */
  lemma InsertedPromotionStaysPending(
    promotion_id: int, title: string, image_url: string, summary: string, tags: seq<string>,
    categories: string, article_url: string, budget: Cents, promoter_id: Uuid, website_id: Uuid,
    now: Millis)
    ensures var p := NewPromotion(promotion_id, title, image_url, summary, tags, categories,
                                  article_url, budget, promoter_id, website_id, now);
            p.remaining_impressions <= 0 && p.status == Pending
            && PromotionUpdated(p, now).status == Inactive
  {
  }
}
