/**
 * The dashboard and widget route handlers: website ownership verification
 * against the page's meta tag, website creation, the widget's
 * recommendation endpoint and promotion creation, each with its mapping
 * from outcomes and errors to HTTP status codes.
 */
module Routes {
  import opened Wrappers
  import opened Json
  import opened Text
  import opened Schema
  import opened Database
  import opened Recommendation
  import SqlText
  import Controllers

  /** A string that does not hold the first letter of `sub` does not contain `sub`. */
  lemma AbsentFirstLetter(s: string, sub: string)
    requires sub != [] && sub[0] !in s
    ensures !Contains(s, sub)
  {
    forall i | 0 <= i <= |s| ensures !OccursAt(s, sub, i) {
      if i < |s| {
        assert s[i] in s;
      }
    }
  }

  // ---------------------------------------------------------------------------
  // POST /api/dashboard/website/verify

  const UNAUTHORIZED := "Unauthorized"
  const SITE_NOT_FOUND := "Website not found"
  const MISSING_DOMAIN := "Missing domain or token"
  const TOKEN_MISMATCH := "Given verification token does not match"
  const VERIFIED := "verified"
  const INTERNAL := "Internal server error"

  datatype VerifyRequest = VerifyRequest(authorization: Option<string>, domain: Option<string>)

  /** The fetch of the domain's page: it threw, or the first verification meta's `content`. */
  datatype SitePage = Unreachable | Fetched(meta: Option<string>)

  datatype RouteResult = RouteResult(status: int, message: string, after: Tables)

  /** `findFirstOrThrow({ where: { domain_name: domain, owner_id } })`; an undefined domain drops its condition. */
  function FirstOwnedSite(ws: seq<Website>, domain: Option<string>, owner: Uuid): (r: Option<nat>)
    ensures r.Some? ==> r.value < |ws| && ws[r.value].owner_id == owner
                        && (domain.Some? ==> ws[r.value].domain_name == domain.value)
    ensures r.None? <==> forall i :: 0 <= i < |ws| ==>
      ws[i].owner_id != owner || (domain.Some? && ws[i].domain_name != domain.value)
  {
    if ws == [] then None
    else if ws[0].owner_id == owner && (domain.None? || ws[0].domain_name == domain.value) then Some(0)
    else
      var r := FirstOwnedSite(ws[1..], domain, owner);
      assert forall i :: 1 <= i < |ws| ==> ws[i] == ws[1..][i - 1];
      if r.Some? then Some(r.value + 1) else None
  }

  /** The session token: the header with its first `Bearer ` removed. */
  function SessionToken(authorization: Option<string>): (r: Option<string>)
    ensures r.None? <==> authorization.None?
    ensures authorization.Some? && StartsWith(authorization.value, "Bearer ") ==> r == Some(authorization.value[7..])
    ensures authorization.Some? && !Contains(authorization.value, "Bearer ") ==> r == authorization
  {
    match authorization
    case None => None
    case Some(h) =>
      if StartsWith(h, "Bearer ") then
        assert OccursAt(h, "Bearer ", 0);
        assert h[..0] + "" + h[7..] == h[7..];
        Some(ReplaceFirst(h, "Bearer ", ""))
      else Some(ReplaceFirst(h, "Bearer ", ""))
  }

  /** How the handler ends before its update, or the update it issues. */
  datatype VerifyStep = Answer(status: int, message: string) | Update(index: nat, proposed: Website)

  /** Everything the handler does up to the `websites.update` call. */
  function VerifyDecision(t: Tables, req: VerifyRequest, session: string -> Option<Uuid>, page: SitePage, now: Millis)
    : (s: VerifyStep)
    ensures s.Update? ==> s.index < |t.websites|
  {
    var token := SessionToken(req.authorization);
    if FalsyString(token) then Answer(401, UNAUTHORIZED)
    else match session(token.value)
      case None => Answer(401, UNAUTHORIZED)
      case Some(user) =>
        match FirstOwnedSite(t.websites, req.domain, user)
        case None => Answer(404, SITE_NOT_FOUND)
        case Some(i) =>
          if FalsyString(req.domain) then Answer(400, MISSING_DOMAIN)
          else match page
            case Unreachable => Answer(500, INTERNAL)
            case Fetched(meta) =>
              if FalsyString(meta) || meta.value != t.websites[i].verification_token then Answer(400, TOKEN_MISMATCH)
              else Update(i, t.websites[i].(status := SiteActive, verified_at := Some(now)))
  }

  /**
   * The handler as written: the update fires `websites_update_trigger`,
   * which assigns `updated_at`, a column `websites` lacks, so the update
   * raises and the handler answers 500.
   */
  function VerifySite(t: Tables, req: VerifyRequest, session: string -> Option<Uuid>, page: SitePage, now: Millis)
    : (r: RouteResult)
    ensures r.after == t
    ensures r.status in {200, 400, 401, 404, 500}
  {
    match VerifyDecision(t, req, session, page, now)
    case Answer(status, message) => RouteResult(status, message, t)
    case Update(i, proposed) =>
      match WebsiteUpdated(proposed, now)
      case Thrown(_) => RouteResult(500, INTERNAL, t)
      case Ok(_) => VerifySiteIntended(t, req, session, page, now)
  }

  /** The handler as intended: the update applies and the site becomes active. */
  function VerifySiteIntended(t: Tables, req: VerifyRequest, session: string -> Option<Uuid>, page: SitePage, now: Millis)
    : (r: RouteResult)
    ensures r.status != 200 ==> r.after == t
  {
    match VerifyDecision(t, req, session, page, now)
    case Answer(status, message) => RouteResult(status, message, t)
    case Update(i, proposed) => RouteResult(200, VERIFIED, t.(websites := t.websites[i := proposed]))
  }

  /** No usable bearer token, or a session the identity provider rejects: 401. */
  lemma VerifyNeedsSession(t: Tables, req: VerifyRequest, session: string -> Option<Uuid>, page: SitePage, now: Millis)
    requires FalsyString(SessionToken(req.authorization)) || session(SessionToken(req.authorization).value).None?
    ensures VerifySite(t, req, session, page, now) == RouteResult(401, UNAUTHORIZED, t)
    ensures VerifySiteIntended(t, req, session, page, now) == RouteResult(401, UNAUTHORIZED, t)
  {
  }

  /** `Bearer <token>` yields the token itself. */
  lemma BearerPrefixRemoved(token: string)
    ensures SessionToken(Some("Bearer " + token)) == Some(token)
  {
    var h := "Bearer " + token;
    assert OccursAt(h, "Bearer ", 0);
    assert h[..0] + "" + h[7..] == token;
  }

  /**
   * The ownership lookup comes first: a user with no matching website gets
   * 404 even when the domain is missing; the missing-domain 400 comes only
   * once some website of the user was found.
   */
  lemma VerifyLookupBeforeDomainCheck(t: Tables, req: VerifyRequest, session: string -> Option<Uuid>, page: SitePage, now: Millis, user: Uuid)
    requires !FalsyString(SessionToken(req.authorization)) && session(SessionToken(req.authorization).value) == Some(user)
    ensures FirstOwnedSite(t.websites, req.domain, user).None? ==>
      VerifySite(t, req, session, page, now) == RouteResult(404, SITE_NOT_FOUND, t)
    ensures FirstOwnedSite(t.websites, req.domain, user).Some? && FalsyString(req.domain) ==>
      VerifySite(t, req, session, page, now) == RouteResult(400, MISSING_DOMAIN, t)
    ensures req.domain.None? ==>
      (VerifySite(t, req, session, page, now).status == 404 <==>
       forall i :: 0 <= i < |t.websites| ==> t.websites[i].owner_id != user)
  {
  }

  /** A page without the meta tag, or with another token, gives 400 and leaves the site as it was. */
  lemma VerifyRejectsWrongToken(t: Tables, req: VerifyRequest, session: string -> Option<Uuid>, meta: Option<string>, now: Millis, user: Uuid)
    requires !FalsyString(SessionToken(req.authorization)) && session(SessionToken(req.authorization).value) == Some(user)
    requires !FalsyString(req.domain) && FirstOwnedSite(t.websites, req.domain, user).Some?
    requires FalsyString(meta) || meta.value != t.websites[FirstOwnedSite(t.websites, req.domain, user).value].verification_token
    ensures VerifySite(t, req, session, Fetched(meta), now) == RouteResult(400, TOKEN_MISMATCH, t)
    ensures VerifySiteIntended(t, req, session, Fetched(meta), now) == RouteResult(400, TOKEN_MISMATCH, t)
  {
  }

  /** As written, a matching token never verifies the site: the update raises and the answer is 500. */
  lemma MatchingTokenFailsAsWritten(t: Tables, req: VerifyRequest, session: string -> Option<Uuid>, now: Millis, user: Uuid)
    requires !FalsyString(SessionToken(req.authorization)) && session(SessionToken(req.authorization).value) == Some(user)
    requires !FalsyString(req.domain) && FirstOwnedSite(t.websites, req.domain, user).Some?
    requires t.websites[FirstOwnedSite(t.websites, req.domain, user).value].verification_token != ""
    ensures var site := t.websites[FirstOwnedSite(t.websites, req.domain, user).value];
      VerifySite(t, req, session, Fetched(Some(site.verification_token)), now) == RouteResult(500, INTERNAL, t)
  {
  }

  /**
   * As intended, a matching non-empty token makes exactly that website
   * active with `verified_at = now`; every other row is unchanged.
   */
  lemma MatchingTokenVerifies(t: Tables, req: VerifyRequest, session: string -> Option<Uuid>, now: Millis, user: Uuid)
    requires !FalsyString(SessionToken(req.authorization)) && session(SessionToken(req.authorization).value) == Some(user)
    requires !FalsyString(req.domain) && FirstOwnedSite(t.websites, req.domain, user).Some?
    requires t.websites[FirstOwnedSite(t.websites, req.domain, user).value].verification_token != ""
    ensures var i := FirstOwnedSite(t.websites, req.domain, user).value;
      var r := VerifySiteIntended(t, req, session, Fetched(Some(t.websites[i].verification_token)), now);
      && r.status == 200 && r.message == VERIFIED
      && r.after == t.(websites := r.after.websites)
      && |r.after.websites| == |t.websites|
      && r.after.websites[i].status == SiteActive && r.after.websites[i].verified_at == Some(now)
      && r.after.websites[i].domain_name == req.domain.value && r.after.websites[i].owner_id == user
      && (forall j :: 0 <= j < |t.websites| && j != i ==> r.after.websites[j] == t.websites[j])
  {
  }

  // ---------------------------------------------------------------------------
  // POST /api/dashboard/website/new

  /** `365 * 24 * 60 * 60 * 1000`. */
  const TOKEN_LIFETIME: Millis := 31536000000
  const DOMAIN_MAX := 255
  const RSS_MAX := 2048

  datatype NewSiteBody = NewSiteBody(domainName: Option<string>, rssFeedUrl: Option<string>, ownerId: Option<string>)
  datatype NewSiteResult = NewSiteResult(status: int, token: Option<Uuid>, after: Tables)

  /** The row would break a UNIQUE key (`P2002`). */
  predicate KeysClash(t: Tables, w: Website) {
    exists i :: 0 <= i < |t.websites| &&
      (t.websites[i].website_id == w.website_id
       || t.websites[i].domain_name == w.domain_name
       || t.websites[i].verification_token == w.verification_token)
  }

  /** The row the handler asks to create; `id` and `token` stand for the column defaults. */
  function NewSiteRow(body: NewSiteBody, now: Millis, id: Uuid, token: Uuid): (w: Website)
    requires body.domainName.Some? && body.ownerId.Some?
  {
    NewWebsite(id, body.ownerId.value, body.domainName.value, body.rssFeedUrl, token, Some(now + TOKEN_LIFETIME), now)
  }

  /**
   * The handler: missing required fields and over-long values fail before
   * the insert (500); a UNIQUE clash is `P2002` (409); a missing owner fails
   * the foreign key (500); otherwise the row is appended and its token
   * returned.
   */
  function NewSite(t: Tables, body: NewSiteBody, now: Millis, id: Uuid, token: Uuid): (r: NewSiteResult)
    ensures r.status != 200 ==> r.after == t && r.token.None?
    ensures r.status in {200, 409, 500}
  {
    if body.domainName.None? || body.ownerId.None? then NewSiteResult(500, None, t)
    else if |body.domainName.value| > DOMAIN_MAX || (body.rssFeedUrl.Some? && |body.rssFeedUrl.value| > RSS_MAX)
    then NewSiteResult(500, None, t)
    else
      var w := NewSiteRow(body, now, id, token);
      if KeysClash(t, w) then NewSiteResult(409, None, t)
      else if !HasUser(t.users, w.owner_id) then NewSiteResult(500, None, t)
      else NewSiteResult(200, Some(w.verification_token), t.(websites := t.websites + [w]))
  }

  method HandleNewSite(db: Db, body: NewSiteBody, now: Millis, id: Uuid, token: Uuid)
    returns (status: int, created: Option<Uuid>)
    modifies db
    ensures NewSiteResult(status, created, db.State()) == NewSite(old(db.State()), body, now, id, token)
  {
    if body.domainName.None? || body.ownerId.None? {
      return 500, None;
    }
    if |body.domainName.value| > DOMAIN_MAX || (body.rssFeedUrl.Some? && |body.rssFeedUrl.value| > RSS_MAX) {
      return 500, None;
    }
    var w := NewSiteRow(body, now, id, token);
    if KeysClash(db.State(), w) {
      return 409, None;
    }
    var ok := db.InsertWebsite(w);
    if !ok {
      return 500, None;
    }
    status, created := 200, Some(w.verification_token);
  }

  /**
   * A created website is exactly one new row: owner and domain from the
   * body, inactive, unverified, its token expiring one year (365 days)
   * after `now`, and that token is what the response carries.
   */
  lemma NewSiteRowAppended(t: Tables, body: NewSiteBody, now: Millis, id: Uuid, token: Uuid)
    requires NewSite(t, body, now, id, token).status == 200
    ensures var r := NewSite(t, body, now, id, token);
      && |r.after.websites| == |t.websites| + 1
      && r.after == t.(websites := t.websites + [r.after.websites[|t.websites|]])
      && var w := r.after.websites[|t.websites|];
      && w.owner_id == body.ownerId.value && w.domain_name == body.domainName.value
      && w.status == SiteInactive && w.verified_at.None?
      && w.verification_token_expires_at == Some(now + 365 * 24 * 60 * 60 * 1000)
      && r.token == Some(w.verification_token)
  {
  }

  /** A domain already registered gives 409 and no write. */
  lemma DuplicateDomainConflicts(t: Tables, body: NewSiteBody, now: Millis, id: Uuid, token: Uuid, i: int)
    requires body.domainName.Some? && body.ownerId.Some?
    requires |body.domainName.value| <= DOMAIN_MAX && (body.rssFeedUrl.Some? ==> |body.rssFeedUrl.value| <= RSS_MAX)
    requires 0 <= i < |t.websites| && t.websites[i].domain_name == body.domainName.value
    ensures NewSite(t, body, now, id, token) == NewSiteResult(409, None, t)
  {
    assert KeysClash(t, NewSiteRow(body, now, id, token));
  }

  /** Creation keeps the UNIQUE keys of `websites`. */
  lemma NewSiteKeepsKeys(t: Tables, body: NewSiteBody, now: Millis, id: Uuid, token: Uuid)
    requires UniqueWebsiteKeys(t.websites)
    ensures UniqueWebsiteKeys(NewSite(t, body, now, id, token).after.websites)
  {
  }

  // ---------------------------------------------------------------------------
  // POST /api/widget

  const MISSING_WIDGET_INPUT := "Missing verificationToken or userId"
  const INVALID_TOKEN_TEXT := "Invalid verification token"

  /** 200 with the recommendation (possibly null), or an error status and message. */
  datatype WidgetReply = Recommended(article: Option<Article>) | WidgetError(status: int, error: string)

  /** The handler; the website verification call is commented out, so `hostToken` is only checked for presence. */
  function Widget(hostToken: Option<string>, userId: Option<string>, t: Tables,
                  raw: Option<seq<RawPromotion>>, env: Environment): (r: WidgetReply)
    ensures FalsyString(hostToken) || FalsyString(userId) <==> r == WidgetError(400, MISSING_WIDGET_INPUT)
  {
    if FalsyString(hostToken) || FalsyString(userId) then WidgetError(400, MISSING_WIDGET_INPUT)
    else WidgetAnswer(Recommend(userId.value, t, raw, env))
  }

  /** The `try` around the call: a result is answered as is, an error by the text it carries. */
  function WidgetAnswer(rec: Outcome<Option<Article>>): (r: WidgetReply)
    ensures r.Recommended? <==> rec.Ok?
    ensures rec.Ok? ==> r == Recommended(rec.value)
    ensures rec.Thrown? ==> r.WidgetError? && r.error == rec.message
                            && (r.status == 403 <==> Contains(rec.message, INVALID_TOKEN_TEXT))
  {
    match rec
    case Ok(a) => Recommended(a)
    case Thrown(m) => WidgetError(if Contains(m, INVALID_TOKEN_TEXT) then 403 else 500, m)
  }

  /** The only error the recommendation chain raises is the missing-column error of its raw SQL. */
  lemma RecommendThrowsMissingColumn(userId: string, t: Tables, raw: Option<seq<RawPromotion>>, env: Environment)
    requires Recommend(userId, t, raw, env).Thrown?
    ensures Recommend(userId, t, raw, env).message == NO_ID_COLUMN
  {
    var prefs := PreferenceOf(t.preferences, userId);
    if userId != ROBINHOOD && prefs.Some? && prefs.value.interests != [] {
      SqlText.ArrayLiteralRoundTrip(prefs.value.interests);
    }
  }

  /**
   * With both inputs present the answer is 200 or 500, never 403, and the
   * host token plays no part: any other token gives the same reply.
   */
  lemma WidgetIgnoresHostToken(hostToken: string, other: string, userId: string, t: Tables,
                               raw: Option<seq<RawPromotion>>, env: Environment)
    requires hostToken != "" && other != "" && userId != ""
    ensures Widget(Some(hostToken), Some(userId), t, raw, env) == Widget(Some(other), Some(userId), t, raw, env)
    ensures Widget(Some(hostToken), Some(userId), t, raw, env).Recommended?
            || Widget(Some(hostToken), Some(userId), t, raw, env) == WidgetError(500, NO_ID_COLUMN)
  {
    var rec := Recommend(userId, t, raw, env);
    assert Widget(Some(hostToken), Some(userId), t, raw, env) == WidgetAnswer(rec);
    assert Widget(Some(other), Some(userId), t, raw, env) == WidgetAnswer(rec);
    if rec.Thrown? {
      RecommendThrowsMissingColumn(userId, t, raw, env);
      AbsentFirstLetter(NO_ID_COLUMN, INVALID_TOKEN_TEXT);
    }
  }

  /** A result of the chain, null included, is answered with status 200. */
  lemma WidgetAnswersRecommendation(hostToken: string, userId: string, t: Tables,
                                    raw: Option<seq<RawPromotion>>, env: Environment)
    requires hostToken != "" && userId != "" && Recommend(userId, t, raw, env).Ok?
    ensures Widget(Some(hostToken), Some(userId), t, raw, env) == Recommended(Recommend(userId, t, raw, env).value)
  {
  }

  // ---------------------------------------------------------------------------
  // POST /api/dashboard/promotions

  const BAD_PROMOTION_INPUT := "Missing or invalid content_id or budget"
  /** Stands for the ORM's validation error on a `content_id` that is not a string. */
  const BAD_CONTENT_ID := "Invalid value for argument content_id"

  datatype PromotionBody = PromotionBody(contentId: JsonValue, budget: JsonValue, status: Option<string>)
  datatype PromotionReply = PromotionReply(status: int, record: Option<ContentPromotion>, error: string, after: Tables)

  /** `!content_id || typeof budget !== "number" || budget <= 0`. */
  predicate BadPromotionInput(body: PromotionBody) {
    Falsy(body.contentId) || !body.budget.Number? || body.budget.n <= 0
  }

  /** The error-to-status rule of the handler's `catch`. */
  function PromotionErrorStatus(message: string): (status: int)
    ensures status == 403 <==> Contains(message, Controllers.FORBIDDEN)
    ensures status != 403 ==> status == 500
  {
    if Contains(message, Controllers.FORBIDDEN) then 403 else 500
  }

  /** The handler, with `user` the authenticated user (None when `AuthenticateUser` throws). */
  function Promotions(t: Tables, user: Option<Uuid>, body: PromotionBody): (r: PromotionReply)
    ensures r.status != 201 ==> r.after == t && r.record.None?
    ensures r.status in {201, 400, 403, 500}
  {
    if user.None? then PromotionReply(PromotionErrorStatus(UNAUTHORIZED), None, UNAUTHORIZED, t)
    else if BadPromotionInput(body) then PromotionReply(400, None, BAD_PROMOTION_INPUT, t)
    else if !body.contentId.Str? then PromotionReply(PromotionErrorStatus(BAD_CONTENT_ID), None, BAD_CONTENT_ID, t)
    else
      var c := Controllers.CreatePromotion(t, body.contentId.s, body.budget.n, body.status, user.value);
      match c.result
      case Ok(p) => PromotionReply(201, Some(p), "", c.after)
      case Thrown(m) => PromotionReply(PromotionErrorStatus(m), None, m, t)
  }

  method HandlePromotions(db: Db, user: Option<Uuid>, body: PromotionBody) returns (r: PromotionReply)
    modifies db
    ensures r == Promotions(old(db.State()), user, body).(after := db.State())
    ensures db.State() == Promotions(old(db.State()), user, body).after
  {
    if user.None? {
      return PromotionReply(PromotionErrorStatus(UNAUTHORIZED), None, UNAUTHORIZED, db.State());
    }
    if BadPromotionInput(body) {
      return PromotionReply(400, None, BAD_PROMOTION_INPUT, db.State());
    }
    if !body.contentId.Str? {
      return PromotionReply(PromotionErrorStatus(BAD_CONTENT_ID), None, BAD_CONTENT_ID, db.State());
    }
    var res := Controllers.HandleCreatePromotion(db, body.contentId.s, body.budget.n, body.status, user.value);
    match res
    case Ok(p) => r := PromotionReply(201, Some(p), "", db.State());
    case Thrown(m) => r := PromotionReply(PromotionErrorStatus(m), None, m, db.State());
  }

  /**
   * Bad input gives 400 without calling `createPromotion`; an
   * unauthenticated caller gets 500, not 401, and so does a truthy
   * `content_id` that is not a string.
   */
  lemma PromotionInputRules(t: Tables, user: Option<Uuid>, body: PromotionBody)
    ensures user.None? ==> Promotions(t, user, body) == PromotionReply(500, None, UNAUTHORIZED, t)
    ensures user.Some? && BadPromotionInput(body) ==> Promotions(t, user, body) == PromotionReply(400, None, BAD_PROMOTION_INPUT, t)
    ensures user.Some? && !BadPromotionInput(body) && !body.contentId.Str? ==>
      Promotions(t, user, body) == PromotionReply(500, None, BAD_CONTENT_ID, t)
  {
    AbsentFirstLetter(UNAUTHORIZED, Controllers.FORBIDDEN);
    AbsentFirstLetter(BAD_CONTENT_ID, Controllers.FORBIDDEN);
  }

  /**
   * A valid request from a user who does not own the content gives 403;
   * one who owns it gets 201 and exactly one new promotion row with the
   * given content id and budget.
   */
  lemma PromotionOwnership(t: Tables, user: Uuid, contentId: string, budget: int, status: Option<string>)
    requires contentId != "" && budget > 0
    ensures var r := Promotions(t, Some(user), PromotionBody(Str(contentId), Number(budget), status));
      && (!Controllers.OwnsContent(t, contentId, user) ==> r.status == 403 && r.after == t)
      && (Controllers.OwnsContent(t, contentId, user) && (FalsyString(status) || Controllers.ParseStatus(status.value).Some?) ==>
            && r.status == 201 && r.record.Some?
            && r.record.value.content_id == contentId && r.record.value.budget == budget
            && r.after == t.(contentPromotions := t.contentPromotions + [r.record.value]))
  {
    assert Controllers.NOT_OWNER[..|Controllers.FORBIDDEN|] == Controllers.FORBIDDEN;
    assert OccursAt(Controllers.NOT_OWNER, Controllers.FORBIDDEN, 0);
    AbsentFirstLetter(Controllers.BAD_STATUS, Controllers.FORBIDDEN);
  }
}
