/**
 * The SQL text the recommender builds from a user's interests: quote
 * doubling and the `ARRAY['a','b']::text[]` literal, together with the way
 * PostgreSQL reads such a literal back.
 */
module SqlText {
  import opened Wrappers
  import opened Text

  const QUOTE: char := '\''
  const ARRAY_OPEN: string := "ARRAY['"
  const ARRAY_CLOSE: string := "']::text[]"
  const ELEMENT_SEP: string := "','"

  function QuoteCount(s: string): (n: nat)
    ensures n == 0 <==> NoneIn(s, {QUOTE})
    ensures n <= |s|
  {
    if s == [] then 0 else (if s[0] == QUOTE then 1 else 0) + QuoteCount(s[1..])
  }

  /** `escapeSql`: `s.replace(/'/g, "''")`. */
  function Escape(s: string): (r: string)
    ensures |r| == |s| + QuoteCount(s)
  {
    if s == [] then ""
    else (if s[0] == QUOTE then [QUOTE, QUOTE] else [s[0]]) + Escape(s[1..])
  }

  /** Escaping changes a string exactly when it has a quote. */
  lemma EscapeIdentity(s: string)
    ensures Escape(s) == s <==> NoneIn(s, {QUOTE})
  {
    if NoneIn(s, {QUOTE}) { EscapeQuoteFree(s); }
  }

  lemma {:induction false} EscapeQuoteFree(s: string)
    requires NoneIn(s, {QUOTE})
    ensures Escape(s) == s
  {
    if s != [] {
      EscapeQuoteFree(s[1..]);
      assert s == [s[0]] + s[1..];
    }
  }

  /** `"ARRAY['" + interests.map(escapeSql).join("','") + "']::text[]"`. */
  function ArrayLiteral(xs: seq<string>): string {
    ARRAY_OPEN + JoinWith(EscapeAll(xs), ELEMENT_SEP) + ARRAY_CLOSE
  }

  function EscapeAll(xs: seq<string>): (r: seq<string>)
    ensures |r| == |xs| && forall i :: 0 <= i < |xs| ==> r[i] == Escape(xs[i])
  {
    if xs == [] then [] else [Escape(xs[0])] + EscapeAll(xs[1..])
  }

  /** Puts the characters `w` in front of the first element of a parse. */
  function PrependWord(w: string, o: Option<seq<string>>): Option<seq<string>> {
    match o
    case None => None
    case Some(parts) => if parts == [] then None else Some([w + parts[0]] + parts[1..])
  }

  /**
   * PostgreSQL reading the inside of `ARRAY['…']`: `''` is one quote, `','`
   * ends an element, and any other quote is a syntax error.
   */
  function ParseElements(s: string): (r: Option<seq<string>>)
    ensures r.Some? ==> |r.value| >= 1
    decreases |s|
  {
    if s == [] then Some([""])
    else if s[0] == QUOTE then
      if |s| >= 2 && s[1] == QUOTE then PrependWord([QUOTE], ParseElements(s[2..]))
      else if |s| >= 3 && s[1] == ',' && s[2] == QUOTE then
        match ParseElements(s[3..])
        case None => None
        case Some(parts) => Some([""] + parts)
      else None
    else PrependWord([s[0]], ParseElements(s[1..]))
  }

  /** The elements of a whole `ARRAY['…']::text[]` literal, or None when it is not one. */
  function ParseArrayLiteral(s: string): (r: Option<seq<string>>)
    ensures r.Some? ==> |r.value| >= 1
    ensures r.Some? ==> StartsWith(s, ARRAY_OPEN) && |s| >= |ARRAY_OPEN| + |ARRAY_CLOSE| && s[|s| - |ARRAY_CLOSE|..] == ARRAY_CLOSE
  {
    if |s| >= |ARRAY_OPEN| + |ARRAY_CLOSE| && s[..|ARRAY_OPEN|] == ARRAY_OPEN
       && s[|s| - |ARRAY_CLOSE|..] == ARRAY_CLOSE
    then ParseElements(s[|ARRAY_OPEN|..|s| - |ARRAY_CLOSE|])
    else None
  }

  /** Prepending twice is prepending the concatenation. */
  lemma PrependTwice(a: string, b: string, o: Option<seq<string>>)
    ensures PrependWord(a, PrependWord(b, o)) == PrependWord(a + b, o)
  {
    match o
    case None =>
    case Some(parts) =>
      if parts != [] {
        assert a + (b + parts[0]) == (a + b) + parts[0];
      }
  }

  /** One parse step over a doubled quote. */
  lemma ParseQuotePair(tail: string)
    ensures ParseElements([QUOTE, QUOTE] + tail) == PrependWord([QUOTE], ParseElements(tail))
  {
    var s := [QUOTE, QUOTE] + tail;
    assert s[0] == QUOTE && s[1] == QUOTE && s[2..] == tail;
  }

  /** One parse step over an ordinary character. */
  lemma ParseOrdinary(c: char, tail: string)
    requires c != QUOTE
    ensures ParseElements([c] + tail) == PrependWord([c], ParseElements(tail))
  {
    var s := [c] + tail;
    assert s[0] == c && s[1..] == tail;
  }

  /** One parse step over the element separator. */
  lemma ParseSeparator(tail: string)
    ensures ParseElements(ELEMENT_SEP + tail) ==
      match ParseElements(tail)
      case None => None
      case Some(parts) => Some([""] + parts)
  {
    var s := ELEMENT_SEP + tail;
    assert s[0] == QUOTE && s[1] == ',' && s[2] == QUOTE && s[3..] == tail;
  }

  /** An escaped word read in front of `rest` extends the first element of `rest`'s parse. */
  lemma {:induction false} EscapedPrefix(w: string, rest: string)
    ensures ParseElements(Escape(w) + rest) == PrependWord(w, ParseElements(rest))
    decreases |w|
  {
    if w == [] {
      assert Escape(w) + rest == rest;
      match ParseElements(rest)
      case None =>
      case Some(parts) =>
        assert w + parts[0] == parts[0];
        assert [parts[0]] + parts[1..] == parts;
    } else {
      EscapedPrefix(w[1..], rest);
      EscapeStep(w, rest);
      PrependTwice([w[0]], w[1..], ParseElements(rest));
      assert [w[0]] + w[1..] == w;
    }
  }

  /** Reading the escape of a word's first character. */
  lemma EscapeStep(w: string, rest: string)
    requires w != []
    ensures ParseElements(Escape(w) + rest) == PrependWord([w[0]], ParseElements(Escape(w[1..]) + rest))
  {
    var tail := Escape(w[1..]) + rest;
    if w[0] == QUOTE {
      assert Escape(w) + rest == [QUOTE, QUOTE] + tail;
      ParseQuotePair(tail);
    } else {
      assert Escape(w) + rest == [w[0]] + tail;
      ParseOrdinary(w[0], tail);
    }
  }

  /** Un-doubling the quotes of an escaped string gives it back. */
  lemma EscapeRoundTrip(s: string)
    ensures ParseElements(Escape(s)) == Some([s])
  {
    EscapedPrefix(s, "");
    assert Escape(s) + "" == Escape(s);
    assert ParseElements("") == Some([""]);
    assert [""][0] == "" && [""][1..] == [];
    assert [s + ""] + [] == [s + ""];
    assert s + "" == s;
  }

  /** Joining at least two elements puts the first one, then the separator, in front. */
  lemma JoinFront(es: seq<string>)
    requires |es| >= 2
    ensures JoinWith(es, ELEMENT_SEP) == es[0] + (ELEMENT_SEP + JoinWith(es[1..], ELEMENT_SEP))
  {
  }

  /** The escaped, joined elements read back as the original list. */
  lemma {:induction false} ElementsRoundTrip(xs: seq<string>)
    requires |xs| >= 1
    ensures ParseElements(JoinWith(EscapeAll(xs), ELEMENT_SEP)) == Some(xs)
    decreases |xs|
  {
    var es := EscapeAll(xs);
    if |xs| == 1 {
      assert JoinWith(es, ELEMENT_SEP) == Escape(xs[0]);
      EscapeRoundTrip(xs[0]);
      assert xs == [xs[0]];
    } else {
      var rest := xs[1..];
      assert EscapeAll(rest) == es[1..];
      var tail := JoinWith(es[1..], ELEMENT_SEP);
      ElementsRoundTrip(rest);
      assert ParseElements(tail) == Some(rest);
      JoinFront(es);
      EscapedPrefix(xs[0], ELEMENT_SEP + tail);
      ParseSeparator(tail);
      assert ParseElements(ELEMENT_SEP + tail) == Some([""] + rest);
      assert PrependWord(xs[0], Some([""] + rest)) == Some([xs[0] + ""] + rest);
      assert xs[0] + "" == xs[0];
      assert [xs[0]] + rest == xs;
    }
  }

  /** The database reads the literal built from a non-empty interest list as exactly that list, in order. */
  lemma ArrayLiteralRoundTrip(xs: seq<string>)
    requires |xs| >= 1
    ensures ParseArrayLiteral(ArrayLiteral(xs)) == Some(xs)
  {
    var body := JoinWith(EscapeAll(xs), ELEMENT_SEP);
    var s := ArrayLiteral(xs);
    assert s[..|ARRAY_OPEN|] == ARRAY_OPEN;
    assert s[|s| - |ARRAY_CLOSE|..] == ARRAY_CLOSE;
    assert s[|ARRAY_OPEN|..|s| - |ARRAY_CLOSE|] == body;
    ElementsRoundTrip(xs);
  }

  /** The empty list builds `ARRAY['']`, which the database reads as one empty interest. */
  lemma EmptyListLiteral()
    ensures ArrayLiteral([]) == "ARRAY['']::text[]"
    ensures ParseArrayLiteral(ArrayLiteral([])) == Some([""])
  {
    assert ArrayLiteral([])[|ARRAY_OPEN|..|ArrayLiteral([])| - |ARRAY_CLOSE|] == "";
  }
}

/**
 * `getAiRecommendations`: at most one promotion for a widget visitor,
 * chosen by a chain of tiers (visitor `ROBINHOOD`, no interests, embedding
 * similarity, tag and category fallback).
 */
module Recommendation {
  import opened Wrappers
  import opened Json
  import opened Text
  import opened Schema
  import opened Database
  import opened SqlText

  const ROBINHOOD: string := "ROBINHOOD"

  /** `ArticleModel`: None stands for `null`. */
  datatype Article = Article(
    id: Option<int>,
    title: string,
    url: string,
    image: Option<string>,
    description: Option<string>,
    tags: seq<string>,
    categories: Option<string>)

  /**
   * A row as the raw SQL reads it: the queries name columns `id` and
   * `active`, so the relation they run against is an input of the model.
   * None in a column is SQL NULL.
   */
  datatype RawPromotion = RawPromotion(
    id: Option<int>,
    title: Option<string>,
    description: Option<string>,
    image: Option<string>,
    url: Option<string>,
    tags: Option<seq<string>>,
    categories: Option<string>,
    boost: int,
    active: bool)

  /** What the embedding endpoint did: threw, answered non-OK, or answered with `data[0].embedding` (None when not an array). */
  datatype EmbedResponse = FetchFailed | NotOk | Answered(vector: Option<seq<int>>)

  /**
   * The environment: the two settings, the endpoint's answer, and the
   * `embedding <#> vector` distance per row (None when the database rejects
   * the vector literal).
   */
  datatype Environment = Environment(
    geminiKey: Option<string>,
    endpoint: Option<string>,
    embed: EmbedResponse,
    distance: Option<RawPromotion -> int>)

  /** The error the raw queries raise against the migration's `promotions`. */
  const NO_ID_COLUMN: string := "column \"id\" does not exist"

  // ---------------------------------------------------------------------------
  // Output mapping

  /** JavaScript `s || null`. */
  function OrNull(s: string): (r: Option<string>)
    ensures r.None? <==> s == ""
    ensures r.Some? ==> r.value == s
  {
    if s == "" then None else Some(s)
  }

  /** The mapping of a Prisma row: `||` turns an empty image, summary or category into null. */
  function FromPromotion(p: Promotion): (a: Article)
    ensures a.id == Some(p.promotion_id) && a.title == p.title && a.url == p.article_url
    ensures a.image.None? <==> p.image_url == ""
    ensures a.description.None? <==> p.summary == ""
    ensures a.categories.None? <==> p.categories == ""
    ensures a.image.Some? ==> a.image.value == p.image_url
    ensures a.description.Some? ==> a.description.value == p.summary
    ensures a.categories.Some? ==> a.categories.value == p.categories
    ensures a.tags == p.tags
  {
    Article(Some(p.promotion_id), p.title, p.article_url, OrNull(p.image_url), OrNull(p.summary),
            p.tags, OrNull(p.categories))
  }

  /** The mapping of a raw row: `??` turns only NULL into the default, so an empty image is kept. */
  function FromRaw(r: RawPromotion): (a: Article)
    ensures a.id == r.id && a.image == r.image && a.description == r.description && a.categories == r.categories
    ensures a.title == r.title.GetOr("") && a.url == r.url.GetOr("")
    ensures r.tags.None? ==> a.tags == []
    ensures r.tags.Some? ==> a.tags == r.tags.value
  {
    Article(r.id, r.title.GetOr(""), r.url.GetOr(""), r.image, r.description, r.tags.GetOr([]),
            r.categories)
  }

  // ---------------------------------------------------------------------------
  // Choosing one row

  /** `a` sorts strictly before `b` under `ORDER BY key ASC, boost DESC`. */
  predicate Before<T>(a: T, b: T, key: T -> int, boost: T -> int) {
    key(a) < key(b) || (key(a) == key(b) && boost(a) > boost(b))
  }

  /**
   * The row `LIMIT 1` returns: nothing sorts before it, and it sorts
   * strictly before every earlier row (ties go to table order).
   */
  function BestIndex<T>(rows: seq<T>, key: T -> int, boost: T -> int): (i: nat)
    requires |rows| > 0
    ensures i < |rows|
    ensures forall j :: 0 <= j < |rows| ==> !Before(rows[j], rows[i], key, boost)
    ensures forall j :: 0 <= j < i ==> Before(rows[i], rows[j], key, boost)
    decreases |rows|
  {
    if |rows| == 1 then 0
    else
      var k := BestIndex(rows[..|rows| - 1], key, boost);
      assert forall j :: 0 <= j < |rows| - 1 ==> rows[..|rows| - 1][j] == rows[j];
      if Before(rows[|rows| - 1], rows[k], key, boost) then |rows| - 1 else k
  }

  /** The first row with `status = 'active'`. */
  function FirstActive(ps: seq<Promotion>): (r: Option<Promotion>)
    ensures r.Some? ==> r.value in ps && r.value.status == Active
    ensures r.None? <==> forall i :: 0 <= i < |ps| ==> ps[i].status != Active
    ensures r.Some? ==> exists i :: 0 <= i < |ps| && ps[i] == r.value && forall j :: 0 <= j < i ==> ps[j].status != Active
  {
    if ps == [] then None
    else if ps[0].status == Active then
      assert ps[0] == ps[0];
      Some(ps[0])
    else
      var r := FirstActive(ps[1..]);
      assert forall i :: 1 <= i < |ps| ==> ps[i] == ps[1..][i - 1];
      if r.Some? then
        var k :| 0 <= k < |ps[1..]| && ps[1..][k] == r.value && forall j :: 0 <= j < k ==> ps[1..][j].status != Active;
        assert ps[k + 1] == r.value;
        r
      else r
  }

  function ActivePromotions(ps: seq<Promotion>): (r: seq<Promotion>)
    ensures forall p :: p in r <==> p in ps && p.status == Active
  {
    if ps == [] then []
    else if ps[0].status == Active then [ps[0]] + ActivePromotions(ps[1..])
    else ActivePromotions(ps[1..])
  }

  function PromotionBoost(p: Promotion): int { p.boost }
  function NoKey<T>(x: T): int { 0 }

  /** `findFirst({ where: { status: "active" }, orderBy: { boost: "desc" } })`. */
  function TopBoosted(ps: seq<Promotion>): (r: Option<Promotion>)
    ensures r.None? <==> ActivePromotions(ps) == []
    ensures r.Some? ==> r.value in ps && r.value.status == Active
  {
    var act := ActivePromotions(ps);
    if act == [] then None else Some(act[BestIndex(act, NoKey, PromotionBoost)])
  }

  /** The top-boosted pick is an active promotion of maximal boost, and none exists only when no promotion is active. */
  lemma TopBoostedIsMaximal(ps: seq<Promotion>)
    ensures TopBoosted(ps).None? <==> forall i :: 0 <= i < |ps| ==> ps[i].status != Active
    ensures TopBoosted(ps).Some? ==> TopBoosted(ps).value in ps && TopBoosted(ps).value.status == Active
    ensures TopBoosted(ps).Some? ==>
      forall i :: 0 <= i < |ps| && ps[i].status == Active ==> ps[i].boost <= TopBoosted(ps).value.boost
  {
    var act := ActivePromotions(ps);
    if act == [] {
      forall i | 0 <= i < |ps| ensures ps[i].status != Active {
        assert ps[i] in ps;
      }
    } else {
      var b := BestIndex(act, NoKey, PromotionBoost);
      assert act[b] in act;
      forall i | 0 <= i < |ps| && ps[i].status == Active ensures ps[i].boost <= act[b].boost {
        assert ps[i] in act;
        var j :| 0 <= j < |act| && act[j] == ps[i];
        assert !Before(act[j], act[b], NoKey, PromotionBoost);
      }
    }
  }

  // ---------------------------------------------------------------------------
  // The raw queries

  /** `categories = ANY(arr)`: NULL never matches. */
  predicate CategoryMatch(r: RawPromotion, arr: seq<string>) {
    r.categories.Some? && r.categories.value in arr
  }

  /** `tags && arr`: the two arrays share an element. */
  predicate TagOverlap(r: RawPromotion, arr: seq<string>) {
    r.tags.Some? && exists i :: 0 <= i < |r.tags.value| && r.tags.value[i] in arr
  }

  /** The common WHERE clause of both raw queries. */
  predicate Candidate(r: RawPromotion, arr: seq<string>) {
    r.active && (CategoryMatch(r, arr) || TagOverlap(r, arr))
  }

  function Candidates(rows: seq<RawPromotion>, arr: seq<string>): (r: seq<RawPromotion>)
    ensures forall x :: x in r <==> x in rows && Candidate(x, arr)
  {
    if rows == [] then []
    else if Candidate(rows[0], arr) then [rows[0]] + Candidates(rows[1..], arr)
    else Candidates(rows[1..], arr)
  }

  /** `CASE WHEN categories = ANY(arr) THEN 0 ELSE 1 END`. */
  function Mismatch(r: RawPromotion, arr: seq<string>): (m: int)
    ensures m == 0 <==> CategoryMatch(r, arr)
    ensures m == 0 || m == 1
  {
    if CategoryMatch(r, arr) then 0 else 1
  }

  function RawBoost(r: RawPromotion): int { r.boost }

  /**
   * One raw query: PostgreSQL parses the array literal, filters and orders
   * the rows by `key` then boost, and keeps one. It fails when the relation
   * lacks the queried columns or the literal does not parse.
   */
  function RawQuery(raw: Option<seq<RawPromotion>>, literal: string, key: seq<string> -> RawPromotion -> int)
    : (r: Outcome<Option<RawPromotion>>)
    ensures r.Thrown? <==> raw.None? || ParseArrayLiteral(literal).None?
    ensures raw.None? ==> r == Thrown(NO_ID_COLUMN)
    ensures r.Ok? ==> (r.value.None? <==> Candidates(raw.value, ParseArrayLiteral(literal).value) == [])
    ensures r.Ok? && r.value.Some? ==> r.value.value in raw.value && Candidate(r.value.value, ParseArrayLiteral(literal).value)
  {
    if raw.None? then Thrown(NO_ID_COLUMN)
    else match ParseArrayLiteral(literal)
      case None => Thrown("syntax error")
      case Some(arr) =>
        var c := Candidates(raw.value, arr);
        if c == [] then Ok(None) else Ok(Some(c[BestIndex(c, key(arr), RawBoost)]))
  }

  function MismatchKey(arr: seq<string>): RawPromotion -> int {
    r => Mismatch(r, arr)
  }

  function DistanceKey(distance: RawPromotion -> int): seq<string> -> RawPromotion -> int {
    arr => distance
  }

  /** The tag and category fallback query. */
  function FallbackQuery(raw: Option<seq<RawPromotion>>, interests: seq<string>): (r: Outcome<Option<RawPromotion>>)
    ensures raw.None? ==> r == Thrown(NO_ID_COLUMN)
    ensures r.Ok? && r.value.Some? ==> r.value.value in raw.value
  {
    RawQuery(raw, ArrayLiteral(interests), MismatchKey)
  }

  /** Whatever the fallback returns is an active candidate ranked first: category matches before tag-only matches, then by boost. */
  lemma FallbackRanking(rows: seq<RawPromotion>, interests: seq<string>)
    requires |interests| >= 1
    ensures var o := FallbackQuery(Some(rows), interests);
      && o.Ok?
      && (o.value.None? <==> forall i :: 0 <= i < |rows| ==> !Candidate(rows[i], interests))
      && (o.value.Some? ==>
            var best := o.value.value;
            && best in rows && best.active
            && (CategoryMatch(best, interests) || TagOverlap(best, interests))
            && forall i :: 0 <= i < |rows| && Candidate(rows[i], interests) ==>
                 (CategoryMatch(rows[i], interests) ==> CategoryMatch(best, interests))
                 && (CategoryMatch(rows[i], interests) == CategoryMatch(best, interests) ==> rows[i].boost <= best.boost))
  {
    ArrayLiteralRoundTrip(interests);
    var c := Candidates(rows, interests);
    if c == [] {
      forall i | 0 <= i < |rows| ensures !Candidate(rows[i], interests) {
        assert rows[i] in rows;
      }
    } else {
      var b := BestIndex(c, MismatchKey(interests), RawBoost);
      assert c[b] in c;
      forall i | 0 <= i < |rows| && Candidate(rows[i], interests)
        ensures (CategoryMatch(rows[i], interests) ==> CategoryMatch(c[b], interests))
             && (CategoryMatch(rows[i], interests) == CategoryMatch(c[b], interests) ==> rows[i].boost <= c[b].boost)
      {
        assert rows[i] in c;
        var j :| 0 <= j < |c| && c[j] == rows[i];
        assert !Before(c[j], c[b], MismatchKey(interests), RawBoost);
      }
    }
  }

  // ---------------------------------------------------------------------------
  // The tier chain

  /** `user_preferences.findUnique({ where: { user_id } })`. */
  function PreferenceOf(ps: seq<Preference>, user: Uuid): (r: Option<Preference>)
    ensures r.Some? ==> r.value in ps && r.value.user_id == user
    ensures r.None? <==> forall i :: 0 <= i < |ps| ==> ps[i].user_id != user
  {
    if ps == [] then None
    else if ps[0].user_id == user then Some(ps[0])
    else
      assert forall i :: 1 <= i < |ps| ==> ps[i] == ps[1..][i - 1];
      PreferenceOf(ps[1..], user)
  }

  function MapOption(o: Option<Promotion>): Option<Article> {
    if o.Some? then Some(FromPromotion(o.value)) else None
  }

  /** The embedding tier: a recommendation, or None to fall through (every failure is caught). */
  function EmbeddingTier(raw: Option<seq<RawPromotion>>, interests: seq<string>, env: Environment): (r: Option<Article>)
    ensures r.Some? ==> !FalsyString(env.geminiKey) && !FalsyString(env.endpoint)
    ensures r.Some? ==> env.embed.Answered? && env.embed.vector.Some? && env.embed.vector.value != []
    ensures r.Some? ==> env.distance.Some? && raw.Some?
    ensures r.Some? ==> exists x :: x in raw.value && r.value == FromRaw(x)
  {
    if FalsyString(env.geminiKey) || FalsyString(env.endpoint) then None
    else match env.embed
      case FetchFailed => None
      case NotOk => None
      case Answered(vector) =>
        if vector.None? || vector.value == [] || env.distance.None? then None
        else match RawQuery(raw, ArrayLiteral(interests), DistanceKey(env.distance.value))
          case Thrown(_) => None
          case Ok(row) => if row.Some? then Some(FromRaw(row.value)) else None
  }

  /** The whole chain for the given user and database state. */
  function Recommend(userId: string, t: Tables, raw: Option<seq<RawPromotion>>, env: Environment)
    : (r: Outcome<Option<Article>>)
    ensures r.Thrown? ==> && userId != ROBINHOOD
                          && PreferenceOf(t.preferences, userId).Some?
                          && PreferenceOf(t.preferences, userId).value.interests != []
                          && r == FallbackAnswer(raw, PreferenceOf(t.preferences, userId).value.interests)
  {
    if userId == ROBINHOOD then Ok(MapOption(FirstActive(t.promotions)))
    else
      var prefs := PreferenceOf(t.preferences, userId);
      if prefs.None? || prefs.value.interests == [] then Ok(MapOption(TopBoosted(t.promotions)))
      else
        var interests := prefs.value.interests;
        var viaEmbedding := EmbeddingTier(raw, interests, env);
        if viaEmbedding.Some? then Ok(viaEmbedding)
        else FallbackAnswer(raw, interests)
  }

  /** The fallback tier's answer: its error thrown on, or its row mapped to an article. */
  function FallbackAnswer(raw: Option<seq<RawPromotion>>, interests: seq<string>): (r: Outcome<Option<Article>>)
    ensures r.Thrown? <==> FallbackQuery(raw, interests).Thrown?
    ensures r.Thrown? ==> r.message == FallbackQuery(raw, interests).message
    ensures r.Ok? ==> (r.value.Some? <==> FallbackQuery(raw, interests).value.Some?)
    ensures r.Ok? && r.value.Some? ==> r.value.value == FromRaw(FallbackQuery(raw, interests).value.value)
  {
    match FallbackQuery(raw, interests)
    case Thrown(m) => Thrown(m)
    case Ok(row) => Ok(if row.Some? then Some(FromRaw(row.value)) else None)
  }

  // ---------------------------------------------------------------------------
  // Properties of the chain

  /** The visitor gets the first active promotion, or null exactly when none is active; preferences and raw rows are not consulted. */
  lemma VisitorGetsActivePromotion(t: Tables, raw: Option<seq<RawPromotion>>, env: Environment)
    ensures var r := Recommend(ROBINHOOD, t, raw, env);
      && r.Ok?
      && (r.value.None? <==> forall i :: 0 <= i < |t.promotions| ==> t.promotions[i].status != Active)
      && (r.value.Some? ==> exists p :: p in t.promotions && p.status == Active && r.value.value == FromPromotion(p))
    ensures forall prefs, raw2, env2 :: Recommend(ROBINHOOD, t.(preferences := prefs), raw2, env2) == Recommend(ROBINHOOD, t, raw, env)
  {
  }

  /** A user without interests gets an active promotion of maximal boost, or null when none is active. */
  lemma NoInterestsGetsTopBoost(userId: string, t: Tables, raw: Option<seq<RawPromotion>>, env: Environment)
    requires userId != ROBINHOOD
    requires forall i :: 0 <= i < |t.preferences| && t.preferences[i].user_id == userId ==> t.preferences[i].interests == []
    ensures var r := Recommend(userId, t, raw, env);
      && r.Ok?
      && (r.value.None? <==> forall i :: 0 <= i < |t.promotions| ==> t.promotions[i].status != Active)
      && (r.value.Some? ==>
            exists p :: && p in t.promotions && p.status == Active && r.value.value == FromPromotion(p)
                        && forall i :: 0 <= i < |t.promotions| && t.promotions[i].status == Active ==> t.promotions[i].boost <= p.boost)
  {
    TopBoostedIsMaximal(t.promotions);
  }

  /**
   * The embedding tier yields nothing, and the chain answers exactly what the
   * fallback answers, without both settings, on a failed or non-OK request,
   * with an absent or empty vector, with no distance to order by, when the
   * query fails, or when no row matches the interests.
   */
  lemma EmbeddingFailuresFallThrough(userId: string, t: Tables, raw: Option<seq<RawPromotion>>, env: Environment)
    requires userId != ROBINHOOD
    requires PreferenceOf(t.preferences, userId).Some?
    requires PreferenceOf(t.preferences, userId).value.interests != []
    requires var interests := PreferenceOf(t.preferences, userId).value.interests;
             || FalsyString(env.geminiKey) || FalsyString(env.endpoint)
             || env.embed.FetchFailed? || env.embed.NotOk?
             || (env.embed.Answered? && (env.embed.vector.None? || env.embed.vector == Some([])))
             || env.distance.None?
             || raw.None?
             || (raw.Some? && Candidates(raw.value, interests) == [])
    ensures EmbeddingTier(raw, PreferenceOf(t.preferences, userId).value.interests, env).None?
    ensures Recommend(userId, t, raw, env) == FallbackAnswer(raw, PreferenceOf(t.preferences, userId).value.interests)
  {
    ArrayLiteralRoundTrip(PreferenceOf(t.preferences, userId).value.interests);
  }

  /** Against the migration's table (no `id`/`active` columns) a user with interests gets a server error. */
  lemma MissingColumnsThrow(userId: string, t: Tables, env: Environment)
    requires userId != ROBINHOOD
    requires PreferenceOf(t.preferences, userId).Some?
    requires PreferenceOf(t.preferences, userId).value.interests != []
    ensures Recommend(userId, t, None, env) == Thrown(NO_ID_COLUMN)
  {
  }

  /** When the user has interests, any result is an active row matching them by category or tag. */
  lemma InterestResultsMatch(userId: string, t: Tables, rows: seq<RawPromotion>, env: Environment)
    requires userId != ROBINHOOD
    requires PreferenceOf(t.preferences, userId).Some?
    requires PreferenceOf(t.preferences, userId).value.interests != []
    ensures var interests := PreferenceOf(t.preferences, userId).value.interests;
      var r := Recommend(userId, t, Some(rows), env);
      && r.Ok?
      && (r.value.Some? ==> exists x :: x in rows && Candidate(x, interests) && r.value.value == FromRaw(x))
  {
    var interests := PreferenceOf(t.preferences, userId).value.interests;
    ArrayLiteralRoundTrip(interests);
    FallbackRanking(rows, interests);
    var o := RawQuery(Some(rows), ArrayLiteral(interests), DistanceKey(if env.distance.Some? then env.distance.value else NoKey));
    if o.Ok? && o.value.Some? {
      var c := Candidates(rows, interests);
      assert o.value.value in c;
    }
  }
}
