/** The two metric adapters of the extraction pipeline (server/api.js:139-177).
    Each turns an external platform's reply into numbers and falls back to a fixed
    default on any failure. The HTTP request and the JSON decoding are not modelled:
    a reply is given as an already-parsed value, and `None` stands for a failed
    `fetch`, a body that is not JSON, or a JSON `null`. */
module Metrics {
  import opened Util

  /** Rank and javascript score reported when the skill platform's profile cannot be read. */
  const SENTINEL_RANK: int := 9
  const SENTINEL_SCORE: int := 0

  /** Pull requests are counted when their URL contains this organisation name. */
  const ORGANIZATION: string := "CodeYourFuture"

  // ----- Skill-ranking platform (Codewars) -----

  datatype OverallRank = OverallRank(rank: int)
  datatype LanguageRank = LanguageRank(score: int)

  /** `ranks` of a user profile: `overall` and the per-language object keyed by
      language name. A missing sub-object is `None`. */
  datatype Ranks = Ranks(overall: Option<OverallRank>, languages: Option<map<string, LanguageRank>>)

  /** A decoded user profile; `ranks` is absent, for instance, in the platform's
      "user not found" body. */
  datatype Profile = Profile(ranks: Option<Ranks>)

  /** The adapter's result `[rank, points]`. */
  datatype Skill = Skill(rank: int, score: int)

  /** Every object on the paths `ranks.overall.rank` and
      `ranks.languages.javascript.score` is present, so reading them does not throw. */
  predicate HasSkillFields(reply: Option<Profile>) {
    reply.Some? && reply.value.ranks.Some?
    && reply.value.ranks.value.overall.Some?
    && reply.value.ranks.value.languages.Some?
    && "javascript" in reply.value.ranks.value.languages.value
  }

  function Abs(x: int): (r: int)
    ensures r >= 0 && (r == x || r == -x)
  {
    if x < 0 then -x else x
  }

  /** `getCodewarInfo`: the absolute overall rank and the javascript score, or the
      sentinel (9, 0) when anything on the way is missing. */
  function CodewarsInfo(reply: Option<Profile>): (r: Skill)
    ensures r.rank >= 0
    ensures HasSkillFields(reply) ==>
      var ranks := reply.value.ranks.value;
      (r.rank == ranks.overall.value.rank || r.rank == -ranks.overall.value.rank)
      && r.score == ranks.languages.value["javascript"].score
    ensures !HasSkillFields(reply) ==> r == Skill(SENTINEL_RANK, SENTINEL_SCORE)
  {
    match reply
    case None => Skill(SENTINEL_RANK, SENTINEL_SCORE)
    case Some(profile) =>
      match profile.ranks
      case None => Skill(SENTINEL_RANK, SENTINEL_SCORE)
      case Some(ranks) =>
        if ranks.overall.None? || ranks.languages.None? then Skill(SENTINEL_RANK, SENTINEL_SCORE)
        else if "javascript" !in ranks.languages.value then Skill(SENTINEL_RANK, SENTINEL_SCORE)
        else Skill(Abs(ranks.overall.value.rank), ranks.languages.value["javascript"].score)
  }

  // ----- Contribution platform (GitHub issue search) -----

  /** One search hit; `pullRequestUrl` is `None` when `pull_request` or its `url` is absent. */
  datatype PrItem = PrItem(pullRequestUrl: Option<string>)

  /** A decoded search reply; `items` is absent, for instance, in a rate-limit error body. */
  datatype SearchReply = SearchReply(items: Option<seq<PrItem>>)

  /** The hit is a pull request of the organisation. */
  predicate IsOrgPr(item: PrItem) {
    item.pullRequestUrl.Some? && Contains(item.pullRequestUrl.value, ORGANIZATION)
  }

  /** Reading `pull_request.url` of this hit throws. */
  predicate LacksUrl(item: PrItem) {
    item.pullRequestUrl.None?
  }

  /** `countByUrl`: the filter walks every item; one item without a URL makes it
      throw (`None`), otherwise the result is the number of organisation pull requests. */
  function CountByUrl(items: seq<PrItem>): (r: Option<nat>)
    ensures r.None? <==> exists i :: 0 <= i < |items| && LacksUrl(items[i])
    ensures r.Some? ==> r.value == |Filter(items, IsOrgPr)| && r.value <= |items|
  {
    if items == [] then Some(0)
    else
      match items[0].pullRequestUrl
      case None => None
      case Some(url) =>
        match CountByUrl(items[1..])
        case None => None
        case Some(n) => Some((if Contains(url, ORGANIZATION) then 1 else 0) + n)
  }

  /** `getGithubInfo`: the organisation pull-request count, or 0 on any failure. */
  function GithubInfo(reply: Option<SearchReply>): (r: nat)
    ensures reply.None? || reply.value.items.None? ==> r == 0
    ensures reply.Some? && reply.value.items.Some? ==>
      var items := reply.value.items.value;
      r <= |items|
      && (CountByUrl(items).Some? ==> r == |Filter(items, IsOrgPr)|)
      && (CountByUrl(items).None? ==> r == 0)
  {
    match reply
    case None => 0
    case Some(body) =>
      match body.items
      case None => 0
      case Some(items) =>
        match CountByUrl(items)
        case None => 0
        case Some(n) => n
  }

  /** The count counts exactly the hits whose URL contains the organisation name:
      each such hit contributes its every occurrence, and no other hit contributes. */
  lemma {:induction false} CountIsOrgMatches(items: seq<PrItem>, item: PrItem)
    requires CountByUrl(items).Some?
    ensures multiset(Filter(items, IsOrgPr))[item] ==
      if item.pullRequestUrl.Some? && (exists i :: OccursAt(item.pullRequestUrl.value, ORGANIZATION, i))
      then multiset(items)[item] else 0
  {
    FilterMultiset(items, IsOrgPr, item);
    if item.pullRequestUrl.Some? {
      ContainsAt(item.pullRequestUrl.value, ORGANIZATION);
    }
  }

  /** An empty search result, or one with no organisation hit, gives 0. */
  lemma {:induction false} NoOrgPrGivesZero(items: seq<PrItem>)
    requires forall i :: 0 <= i < |items| ==> !IsOrgPr(items[i])
    ensures GithubInfo(Some(SearchReply(Some(items)))) == 0
  {
    FilterNone(items, IsOrgPr);
  }
}
