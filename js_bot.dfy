/**
 * index.js, the Node.js bot ("v8.0 Permanent Registration"): SQLite-backed
 * users and settings, a registration that must be confirmed with a button
 * and that `!register` refuses to start again once a row exists (a second
 * prompt opened before the first was confirmed still replaces the row when
 * it is confirmed), a link collector that accepts one link per
 * registered user, and a report that scores every participant by the
 * session tweets they replied to.
 *
 * Discord, the lookup service and the database are outside the model: a
 * lookup is a total function from request to response (`Fetched`), whether
 * the raid channel can be fetched is a boolean input, and the two database
 * tables are maps held by `RaidBot`.
 */
module JsBot {
  import opened Wrappers
  import opened Json
  import opened JsonSearch
  import opened Links
  import opened Session
  import opened Scoring
  import opened Handles

  /** index.js:25: this Discord account passes the admin gate everywhere. */
  const SuperAdminId: string := "1442310589362999428"

  /** `GET /user?username=…` on the lookup service. */
  type UserLookup = string -> Fetched

  /** `GET /user-replies-v2?user=…&count=…`. */
  datatype RepliesRequest = RepliesRequest(user: string, count: nat)

  type RepliesLookup = RepliesRequest -> Fetched

  // ---------------------------------------------------------------------
  // getNumericId (index.js:100-119)
  // ---------------------------------------------------------------------

  /** `!isNaN(id)` for the id strings the service sends: a nonempty run of
      decimal digits. */
  predicate LooksNumeric(id: string) {
    |id| >= 1 && AllDigits(id)
  }

  /** The fallback test on a value found under `id`. */
  predicate PlausibleId(id: string) {
    LooksNumeric(id) && |id| > 5
  }

  /** The first plausible id in walk order. */
  function FirstPlausible(ids: seq<string>): (r: Option<string>)
    ensures r.None? <==> forall i :: 0 <= i < |ids| ==> !PlausibleId(ids[i])
    ensures r.Some? ==> exists k :: 0 <= k < |ids| && ids[k] == r.value && PlausibleId(ids[k])
                                    && forall i :: 0 <= i < k ==> !PlausibleId(ids[i])
  {
    if ids == [] then None
    else if PlausibleId(ids[0]) then Some(ids[0])
    else
      var r := FirstPlausible(ids[1..]);
      assert forall i :: 1 <= i < |ids| ==> ids[i] == ids[1..][i - 1];
      r
  }

  /** The numeric account id `getNumericId` resolves from one response:
      the first `rest_id` found anywhere, else the first plausible `id`. */
  function NumericIdOf(response: Fetched): (nid: Option<string>)
    ensures response.RequestError? ==> nid == None
    ensures nid.Some? ==> response.Received?
                          && (nid.value in ValuesByKey(response.body, "rest_id")
                              || (nid.value in ValuesByKey(response.body, "id") && PlausibleId(nid.value)))
    ensures response.Received? && ValuesByKey(response.body, "rest_id") != [] ==>
              nid == Some(ValuesByKey(response.body, "rest_id")[0])
    ensures response.Received? && ValuesByKey(response.body, "rest_id") == [] ==>
              nid == FirstPlausible(ValuesByKey(response.body, "id"))
  {
    match response
    case RequestError => None
    case Received(body) =>
      var restIds := ValuesByKey(body, "rest_id");
      if |restIds| > 0 then Some(restIds[0]) else FirstPlausible(ValuesByKey(body, "id"))
  }

  /** What the resolved id is, in terms of the response tree: a `rest_id`
      whenever the response holds one, otherwise a plausible `id` whenever
      it holds one, otherwise nothing. */
  lemma NumericIdOfFinds(response: Fetched)
    ensures response.RequestError? ==> NumericIdOf(response) == None
    ensures response.Received? && (exists s :: Yields(response.body, "rest_id", s)) ==>
              NumericIdOf(response).Some? && Yields(response.body, "rest_id", NumericIdOf(response).value)
    ensures response.Received? && (forall s :: !Yields(response.body, "rest_id", s)) ==>
              (NumericIdOf(response).Some? <==> exists s :: Yields(response.body, "id", s) && PlausibleId(s))
    ensures response.Received? && (forall s :: !Yields(response.body, "rest_id", s)) && NumericIdOf(response).Some? ==>
              Yields(response.body, "id", NumericIdOf(response).value) && PlausibleId(NumericIdOf(response).value)
  {
    if response.Received? {
      var body := response.body;
      var restIds := ValuesByKey(body, "rest_id");
      var ids := ValuesByKey(body, "id");
      if |restIds| > 0 {
        ValuesByKeyIff(body, "rest_id", restIds[0]);
      } else {
        forall s ensures !Yields(body, "rest_id", s) {
          ValuesByKeyIff(body, "rest_id", s);
        }
        if exists s :: Yields(body, "id", s) && PlausibleId(s) {
          var s :| Yields(body, "id", s) && PlausibleId(s);
          ValuesByKeyIff(body, "id", s);
          var k :| 0 <= k < |ids| && ids[k] == s;
        }
        var r := FirstPlausible(ids);
        if r.Some? {
          ValuesByKeyIff(body, "id", r.value);
        }
      }
    }
  }

  /** The first `rest_id` in walk order wins: when an array element yields
      one, the later elements do not matter. */
  lemma EarlierItemRestIdWins(x: Value, rest: seq<Value>)
    requires exists s :: Yields(x, "rest_id", s)
    ensures NumericIdOf(Received(Arr([x] + rest))) == NumericIdOf(Received(x))
  {
    var s :| Yields(x, "rest_id", s);
    ValuesByKeyIff(x, "rest_id", s);
    FirstItemFirst(x, rest, "rest_id");
  }

  /** Likewise for objects: when a member, with what lies beneath it,
      yields a `rest_id`, the later members do not matter. */
  lemma EarlierMemberRestIdWins(m: Member, rest: seq<Member>)
    requires exists s :: Yields(Obj([m]), "rest_id", s)
    ensures NumericIdOf(Received(Obj([m] + rest))) == NumericIdOf(Received(Obj([m])))
  {
    var s :| Yields(Obj([m]), "rest_id", s);
    ValuesByKeyIff(Obj([m]), "rest_id", s);
    FirstMemberFirst(m, rest, "rest_id");
    FirstMemberFirst(m, [], "rest_id");
    assert [m] + [] == [m];
  }

  /** Two objects in a row, each with its own `rest_id`: the first one's
      is returned. */
  lemma FirstRestIdReturned()
    ensures NumericIdOf(Received(Arr([Obj([Member("rest_id", Str("111111"))]),
                                      Obj([Member("rest_id", Str("222222"))])])))
            == Some("111111")
  {
    var first := Obj([Member("rest_id", Str("111111"))]);
    var second := Obj([Member("rest_id", Str("222222"))]);
    assert first.members[0] == Member("rest_id", Str("111111"));
    assert Binds(first, "rest_id", Str("111111"));
    assert JsTruthy(Str("111111")) && JsString(Str("111111")) == "111111";
    assert Yields(first, "rest_id", "111111");
    EarlierItemRestIdWins(first, [second]);
    assert [first] + [second] == [first, second];
    FirstMemberFirst(Member("rest_id", Str("111111")), [], "rest_id");
    assert [Member("rest_id", Str("111111"))] + [] == [Member("rest_id", Str("111111"))];
  }

  /** index.js:100-119. */
  method GetNumericId(username: string, lookup: UserLookup) returns (nid: Option<string>)
    ensures nid == NumericIdOf(lookup(username))
  {
    var response := lookup(username);
    if response.RequestError? {
      return None;
    }
    var ids := FindValuesByKey(response.body, "rest_id", []);
    assert ids == ValuesByKey(response.body, "rest_id");
    if |ids| > 0 {
      return Some(ids[0]);
    }
    ids := FindValuesByKey(response.body, "id", []);
    assert ids == ValuesByKey(response.body, "id");
    nid := ScanIds(ids);
  }

  /** `for (let id of ids) { if (!isNaN(id) && id.length > 5) return id; }`. */
  method ScanIds(ids: seq<string>) returns (nid: Option<string>)
    ensures nid == FirstPlausible(ids)
  {
    for i := 0 to |ids|
      invariant FirstPlausible(ids[i..]) == FirstPlausible(ids)
    {
      if LooksNumeric(ids[i]) && |ids[i]| > 5 {
        return Some(ids[i]);
      }
      assert ids[i..][1..] == ids[i + 1..];
    }
    return None;
  }

  // ---------------------------------------------------------------------
  // checkReplies (index.js:121-149)
  // ---------------------------------------------------------------------

  /** How many replies to ask for: 20 more than there are targets, at
      most 100. */
  function FetchCount(targets: nat): (count: nat)
    ensures 20 <= count <= 100
    ensures targets <= 80 ==> count == targets + 20
    ensures targets > 80 ==> count == 100
  {
    var count := targets + 20;
    var count := if count < 20 then 20 else count;
    if count > 100 then 100 else count
  }

  /** A stored numeric id that passes `if (!userNumericId)`. */
  predicate IdPresent(id: Option<string>) {
    id.Some? && id.value != ""
  }

  /** The tweets one page of replies answers: every truthy value under
      either reply key, at any depth. */
  function RepliedTo(body: Value): set<string> {
    Elems(ValuesByKey(body, "in_reply_to_status_id_str")) + Elems(ValuesByKey(body, "in_reply_to_status_id"))
  }

  /** How many entries of `targets` lie in `found`, duplicates included. */
  function CountIn(targets: seq<string>, found: set<string>): (n: nat)
    ensures n <= |targets|
  {
    if targets == [] then 0
    else CountIn(targets[..|targets| - 1], found) + (if targets[|targets| - 1] in found then 1 else 0)
  }

  /** The score `checkReplies` gives one account. */
  function RepliesScore(numericId: Option<string>, targets: seq<string>, replies: RepliesLookup): (n: nat)
    ensures n <= |targets|
    ensures !IdPresent(numericId) ==> n == 0
    ensures IdPresent(numericId) && replies(RepliesRequest(numericId.value, FetchCount(|targets|))).RequestError?
            ==> n == 0
    ensures IdPresent(numericId) && Distinct(targets)
            && replies(RepliesRequest(numericId.value, FetchCount(|targets|))).Received? ==>
              n == |Elems(targets) * RepliedTo(replies(RepliesRequest(numericId.value, FetchCount(|targets|))).body)|
  {
    if !IdPresent(numericId) then 0
    else
      match replies(RepliesRequest(numericId.value, FetchCount(|targets|)))
      case RequestError => 0
      case Received(body) =>
        if Distinct(targets) then
          CountInDistinct(targets, RepliedTo(body));
          CountIn(targets, RepliedTo(body))
        else CountIn(targets, RepliedTo(body))
  }

  /** A target counts when the reply page holds it under either key. */
  lemma RepliedToIff(body: Value, target: string)
    ensures target in RepliedTo(body) <==>
            Yields(body, "in_reply_to_status_id_str", target) || Yields(body, "in_reply_to_status_id", target)
  {
    ValuesByKeyIff(body, "in_reply_to_status_id_str", target);
    ValuesByKeyIff(body, "in_reply_to_status_id", target);
  }

  /** With distinct targets (the session's tweet ids always are), the score
      is the number of session tweets the account replied to. */
  lemma {:induction false} CountInDistinct(targets: seq<string>, found: set<string>)
    requires Distinct(targets)
    ensures CountIn(targets, found) == |Elems(targets) * found|
  {
    if targets != [] {
      var n := |targets| - 1;
      var init, last := targets[..n], targets[n];
      var step := if last in found then 1 else 0;
      assert CountIn(targets, found) == CountIn(init, found) + step;
      assert CountIn(init, found) == |Elems(init) * found| by {
        DistinctSnoc(targets);
        CountInDistinct(init, found);
      }
      assert |Elems(targets) * found| == |Elems(init) * found| + step by {
        DistinctSnoc(targets);
        assert Elems(targets) == Elems(init) + {last} by {
          assert targets == init + [last];
          ElemsConcat(init, [last]);
          assert Elems([last]) == {last};
        }
        InterAddOne(Elems(init), last, found);
      }
    }
  }

  /** Dropping the last element of a duplicate-free sequence leaves one,
      which does not contain that element. */
  lemma DistinctSnoc<T>(s: seq<T>)
    requires s != [] && Distinct(s)
    ensures Distinct(s[..|s| - 1]) && s[|s| - 1] !in Elems(s[..|s| - 1])
  {
    var init := s[..|s| - 1];
    assert forall i :: 0 <= i < |init| ==> init[i] == s[i];
  }

  lemma InterAddOne(a: set<string>, x: string, found: set<string>)
    requires x !in a
    ensures |(a + {x}) * found| == |a * found| + (if x in found then 1 else 0)
  {
    if x in found {
      assert (a + {x}) * found == (a * found) + {x};
    } else {
      assert (a + {x}) * found == a * found;
    }
  }

  /** `ids.forEach(id => foundIds.add(String(id)))` on a JavaScript `Set`,
      kept as its contents in insertion order. */
  method AddAll(found: seq<string>, ids: seq<string>) returns (r: seq<string>)
    requires Distinct(found)
    ensures Distinct(r)
    ensures Elems(r) == Elems(found) + Elems(ids)
    ensures |found| <= |r| && r[..|found|] == found
  {
    r := found;
    for i := 0 to |ids|
      invariant Distinct(r)
      invariant Elems(r) == Elems(found) + Elems(ids[..i])
      invariant |found| <= |r| && r[..|found|] == found
    {
      assert ids[..i + 1] == ids[..i] + [ids[i]];
      assert Elems(ids[..i + 1]) == Elems(ids[..i]) + {ids[i]};
      if ids[i] !in r {
        assert Elems(r + [ids[i]]) == Elems(r) + {ids[i]};
        assert (r + [ids[i]])[..|found|] == r[..|found|];
        r := r + [ids[i]];
      }
    }
    assert ids[..|ids|] == ids;
  }

  /** index.js:121-149. */
  method CheckReplies(userNumericId: Option<string>, targetTweetIds: seq<string>, replies: RepliesLookup)
    returns (matches: nat)
    ensures matches == RepliesScore(userNumericId, targetTweetIds, replies)
  {
    if !IdPresent(userNumericId) {
      return 0;
    }
    var fetchCount := |targetTweetIds| + 20;
    if fetchCount < 20 {
      fetchCount := 20;
    }
    if fetchCount > 100 {
      fetchCount := 100;
    }
    var response := replies(RepliesRequest(userNumericId.value, fetchCount));
    if response.RequestError? {
      return 0;
    }
    var foundIds: seq<string> := [];
    var list := FindValuesByKey(response.body, "in_reply_to_status_id_str", foundIds);
    ElemsConcat(foundIds, ValuesByKey(response.body, "in_reply_to_status_id_str"));
    foundIds := AddAll(foundIds, list);
    list := FindValuesByKey(response.body, "in_reply_to_status_id", foundIds);
    ElemsConcat(foundIds, ValuesByKey(response.body, "in_reply_to_status_id"));
    foundIds := AddAll(foundIds, list);
    matches := 0;
    for i := 0 to |targetTweetIds|
      invariant matches == CountIn(targetTweetIds[..i], Elems(foundIds))
    {
      assert targetTweetIds[..i + 1][..i] == targetTweetIds[..i];
      if targetTweetIds[i] in foundIds {
        matches := matches + 1;
      }
    }
    assert targetTweetIds[..|targetTweetIds|] == targetTweetIds;
  }

  // ---------------------------------------------------------------------
  // The report (index.js:172-232)
  // ---------------------------------------------------------------------

  /** A row of the users table. */
  datatype UserRow = UserRow(handle: string, numericId: Option<string>)

  /** One participant's result row: an unknown user scores 0 as
      "Unknown"; a known one scores its replies, never above the number of
      targets. */
  function ResultFor(users: map<string, UserRow>, userId: string, targets: seq<string>, replies: RepliesLookup)
    : (r: Result<string>)
    ensures r.id == userId && r.score <= |targets|
    ensures userId !in users ==> r.handle == "Unknown" && r.score == 0
    ensures userId in users ==> r.handle == users[userId].handle
    ensures userId in users && !IdPresent(users[userId].numericId) ==> r.score == 0
    ensures userId in users ==> r.score == RepliesScore(users[userId].numericId, targets, replies)
  {
    if userId !in users then Result(userId, "Unknown", 0)
    else Result(userId, users[userId].handle, RepliesScore(users[userId].numericId, targets, replies))
  }

  function ResultsFor(users: map<string, UserRow>, ids: seq<string>, targets: seq<string>, replies: RepliesLookup)
    : (rs: seq<Result<string>>)
    ensures |rs| == |ids|
    ensures forall i :: 0 <= i < |ids| ==> rs[i] == ResultFor(users, ids[i], targets, replies)
  {
    seq(|ids|, i requires 0 <= i < |ids| => ResultFor(users, ids[i], targets, replies))
  }

  /** What closing a session reports: nothing without a usable channel, a
      "no links" notice for an empty session, otherwise every participant's
      row, best score first, with its percentage of the requirement. */
  function ReportOf(channelUsable: bool, t: Table<string>, users: map<string, UserRow>, replies: RepliesLookup)
    : (r: CloseOutcome<string>)
    ensures !channelUsable ==> r == NotReported
    ensures channelUsable && t == [] ==> r == NoLinks
    ensures channelUsable && t != [] ==>
              && r.Report? && r.required == Required(|t|)
              && |r.results| == |Participants(t)| == |r.lines|
              && forall i :: 0 <= i < |r.lines| ==> r.lines[i] == LineOf(r.results[i], r.required)
  {
    if !channelUsable then NotReported
    else if t == [] then NoLinks
    else
      var results := SortByScore(ResultsFor(users, Participants(t), Tweets(t), replies));
      Report(Required(|t|), results, LinesOf(results, Required(|t|)))
  }

  /** Under the one-link rule the report has one row per submitted tweet,
      ranked by score, every participant and nobody else appears, no score
      exceeds the number of tweets, and a row is complete exactly when its
      score meets the requirement. */
  lemma ReportOfRanks(channelUsable: bool, t: Table<string>, users: map<string, UserRow>, replies: RepliesLookup)
    requires OneLinkPerAuthor(t)
    ensures var r := ReportOf(channelUsable, t, users, replies);
            r.Report? ==>
              && RanksAuthors(r.results, t, users, replies)
              && |r.lines| == |r.results|
              && (forall i :: 0 <= i < |r.lines| ==> (r.lines[i].complete <==> r.results[i].score >= r.required))
  {
    if channelUsable && t != [] {
      ParticipantsOneEach(t);
      var sorted := SortByScore(ResultsFor(users, Authors(t), Tweets(t), replies));
      assert ReportOf(channelUsable, t, users, replies).results == sorted;
      RankedResults(t, users, replies);
    }
  }

  /** `rows` ranks the authors of `t`: one row per tweet, best score
      first, every author and nobody else, no score above the number of
      tweets, and each row that author's own result. */
  predicate RanksAuthors(rows: seq<Result<string>>, t: Table<string>, users: map<string, UserRow>,
                         replies: RepliesLookup) {
    && |rows| == |t|
    && NonIncreasing(rows)
    && (forall i :: 0 <= i < |rows| ==> rows[i].id in Authors(t) && rows[i].score <= |t|)
    && (forall a :: a in Authors(t) ==> exists i :: 0 <= i < |rows| && rows[i].id == a)
    && (forall i :: 0 <= i < |rows| ==> rows[i] == ResultFor(users, rows[i].id, Tweets(t), replies))
  }

  /** The rows of a report, before they become lines. */
  lemma RankedResults(t: Table<string>, users: map<string, UserRow>, replies: RepliesLookup)
    ensures RanksAuthors(SortByScore(ResultsFor(users, Authors(t), Tweets(t), replies)), t, users, replies)
  {
    RankedRows(Authors(t), ResultsFor(users, Authors(t), Tweets(t), replies), |t|);
    RowsAreOwnResults(users, Authors(t), Tweets(t), replies);
  }

  /** Ranking only reorders rows, so every ranked row is still its own
      participant's result. */
  lemma RowsAreOwnResults(users: map<string, UserRow>, ids: seq<string>, targets: seq<string>, replies: RepliesLookup)
    ensures var sorted := SortByScore(ResultsFor(users, ids, targets, replies));
            forall i :: 0 <= i < |sorted| ==> sorted[i] == ResultFor(users, sorted[i].id, targets, replies)
  {
    var rows := ResultsFor(users, ids, targets, replies);
    var sorted := SortByScore(rows);
    forall i | 0 <= i < |sorted| ensures sorted[i] == ResultFor(users, sorted[i].id, targets, replies) {
      assert sorted[i] in multiset(sorted);
      assert sorted[i] in multiset(rows);
      var k :| 0 <= k < |rows| && rows[k] == sorted[i];
    }
  }

  // ---------------------------------------------------------------------
  // Registration (index.js:278-335)
  // ---------------------------------------------------------------------

  /** A registration waiting for its button press. */
  datatype Pending = Pending(authorId: string, handle: string, numericId: string)

  datatype RegisterOutcome =
    | AlreadyRegistered(handle: string)
    | Usage
    | NotFound(handle: string)
    | AskConfirmation(pending: Pending)

  datatype Button = ConfirmButton | CancelButton

  datatype ClickOutcome = NotForYou | Registered | Cancelled

  // ---------------------------------------------------------------------
  // The bot's state and its handlers
  // ---------------------------------------------------------------------

  datatype LinkOutcome =
    | NotCollected
    | Unregistered
    | SecondLink
    | Collected(tweet: string)

  /** The admin commands, by their lower-cased command word: `setchannel`
      and `setrole` with the first mentioned channel or role, `start` or
      `forceraid`, and `end` or `forceclose`. */
  datatype AdminCommand =
    | SetChannel(channel: Option<string>)
    | SetRole(role: Option<string>)
    | Start
    | End

  datatype AdminOutcome =
    | NotAdmin
    | MissingMention
    | SettingSaved
    | SessionOpened(announced: bool)
    | SessionClosed(report: CloseOutcome<string>)

  class RaidBot {
    /** `sessionTweets`: tweet id -> Discord id of the poster. */
    var sessionTweets: Table<string>
    /** The `users` table: Discord id -> handle and numeric id. */
    var users: map<string, UserRow>
    /** The `settings` table: `channel_id` and `admin_role_id`. */
    var settings: map<string, string>

    /** Tweet ids are keys of a map, and the collector takes one link per
        author. */
    ghost predicate Valid()
      reads this
    {
      TweetsDistinct(sessionTweets) && OneLinkPerAuthor(sessionTweets)
    }

    constructor (users: map<string, UserRow>, settings: map<string, string>)
      ensures Valid()
      ensures sessionTweets == [] && this.users == users && this.settings == settings
    {
      sessionTweets := [];
      this.users := users;
      this.settings := settings;
    }

    /** `getSetting(key)`, with a missing row as `None`. */
    function Setting(key: string): Option<string>
      reads this
    {
      if key in settings then Some(settings[key]) else None
    }

    /** `getSetting('channel_id')` is truthy. */
    predicate ChannelConfigured()
      reads this
    {
      Setting("channel_id").Some? && Setting("channel_id").value != ""
    }

    /** The message is a link the collector looks at: not from a bot, in
        the raid channel, with a `status/<digits>` in it. */
    predicate LinkInRaidChannel(message: Message<string>)
      reads this
    {
      && !message.authorIsBot
      && ChannelConfigured()
      && message.channelId == settings["channel_id"]
      && ExtractTweetId(message.content).Some?
    }

    /** The admin gate (index.js:364-369): the super admin, a holder of the
        configured admin role, or a member with the Administrator
        permission. */
    predicate IsAdmin(authorId: string, memberRoles: set<string>, administrator: bool)
      reads this
      ensures authorId == SuperAdminId || administrator ==> IsAdmin(authorId, memberRoles, administrator)
      ensures Setting("admin_role_id").None? || Setting("admin_role_id") == Some("") ==>
                (IsAdmin(authorId, memberRoles, administrator) <==> authorId == SuperAdminId || administrator)
    {
      || authorId == SuperAdminId
      || (Setting("admin_role_id").Some? && Setting("admin_role_id").value != ""
          && Setting("admin_role_id").value in memberRoles)
      || administrator
    }

    /**
     * The link collector (index.js:240-268). A link from an unregistered
     * user or from a user who already has a link in the session is refused
     * (the message is deleted and handling stops); an accepted link is
     * credited to its poster, replacing whoever held that tweet id before.
     * A message from a bot is dropped before anything else (index.js:238);
     * otherwise handling goes on to the commands after `NotCollected` and
     * `Collected`.
     */
    method CollectLink(message: Message<string>) returns (outcome: LinkOutcome)
      requires Valid()
      modifies this`sessionTweets
      ensures Valid()
      ensures outcome.NotCollected? <==> !LinkInRaidChannel(message)
      ensures outcome.Unregistered? <==> LinkInRaidChannel(message) && message.authorId !in users
      ensures outcome.SecondLink? <==>
                LinkInRaidChannel(message) && message.authorId in users && message.authorId in Authors(old(sessionTweets))
      ensures outcome.Collected? ==> outcome.tweet == ExtractTweetId(message.content).value
      ensures outcome.Collected? ==>
                && sessionTweets == Set(old(sessionTweets), outcome.tweet, message.authorId)
                && AsMap(sessionTweets) == AsMap(old(sessionTweets))[outcome.tweet := message.authorId]
      ensures !outcome.Collected? ==> sessionTweets == old(sessionTweets)
    {
      if message.authorIsBot {
        return NotCollected;
      }
      var channelId := Setting("channel_id");
      if channelId.Some? && channelId.value != "" && message.channelId == channelId.value {
        var tweet := ExtractTweetId(message.content);
        if tweet.Some? {
          if message.authorId !in users {
            return Unregistered;
          }
          var currentParticipants := Authors(sessionTweets);
          if message.authorId in currentParticipants {
            return SecondLink;
          }
          SetKeepsInvariants(sessionTweets, tweet.value, message.authorId);
          sessionTweets := Set(sessionTweets, tweet.value, message.authorId);
          return Collected(tweet.value);
        }
      }
      return NotCollected;
    }

    /** `openSession` (index.js:154-170): the table is cleared first, so
        even a session that cannot announce itself starts empty. */
    method OpenSession(channelFound: bool) returns (announced: bool)
      modifies this`sessionTweets
      ensures Valid()
      ensures sessionTweets == []
      ensures announced <==> ChannelConfigured() && channelFound
    {
      sessionTweets := [];
      var channelId := Setting("channel_id");
      if channelId.None? || channelId.value == "" {
        return false;
      }
      if !channelFound {
        return false;
      }
      return true;
    }

    /** `closeAndReport` (index.js:172-232). The session table is left as
        it is: only the next `openSession` clears it. */
    method CloseAndReport(channelFound: bool, replies: RepliesLookup) returns (outcome: CloseOutcome<string>)
      ensures outcome == ReportOf(ChannelConfigured() && channelFound, sessionTweets, users, replies)
    {
      var channelId := Setting("channel_id");
      if channelId.None? || channelId.value == "" || !channelFound {
        return NotReported;
      }
      var targets := Tweets(sessionTweets);
      if |targets| == 0 {
        return NoLinks;
      }
      var participants := Participants(sessionTweets);
      var results := ScoreParticipants(participants, targets, replies);
      results := SortByScore(results);
      var req: int := |targets| - 1;
      if req < 1 {
        req := 1;
      }
      return Report(req, results, LinesOf(results, req));
    }

    /** The scoring loop of `closeAndReport` (index.js:191-204): one row
        per participant, in participant order. */
    method ScoreParticipants(participants: seq<string>, targets: seq<string>, replies: RepliesLookup)
      returns (results: seq<Result<string>>)
      ensures results == ResultsFor(users, participants, targets, replies)
    {
      results := [];
      for k := 0 to |participants|
        invariant |results| == k
        invariant forall i :: 0 <= i < k ==> results[i] == ResultFor(users, participants[i], targets, replies)
      {
        var userId := participants[k];
        var score := 0;
        var handle := if userId in users then users[userId].handle else "Unknown";
        if userId in users && IdPresent(users[userId].numericId) {
          score := CheckReplies(users[userId].numericId, targets, replies);
          if score > |targets| {
            score := |targets|;
          }
        }
        results := results + [Result(userId, handle, score)];
      }
    }

    /**
     * `!register` (index.js:278-300): a user who has a row is refused, a
     * missing argument gets the usage line, and otherwise the cleaned
     * handle is looked up; nothing is stored until the confirmation.
     */
    method Register(authorId: string, arg: Option<string>, lookup: UserLookup) returns (outcome: RegisterOutcome)
      ensures authorId in users ==> outcome == AlreadyRegistered(users[authorId].handle)
      ensures authorId !in users && (arg.None? || arg.value == "") ==> outcome == Usage
      ensures authorId !in users && arg.Some? && arg.value != "" ==>
                var handle := JsCleanHandle(arg.value);
                var nid := NumericIdOf(lookup(handle));
                outcome == if IdPresent(nid) then AskConfirmation(Pending(authorId, handle, nid.value))
                           else NotFound(handle)
    {
      if authorId in users {
        return AlreadyRegistered(users[authorId].handle);
      }
      if arg.None? || arg.value == "" {
        return Usage;
      }
      var handle := Trim(RemoveFirst(arg.value, '@'), JsSpace);
      var nid := GetNumericId(handle, lookup);
      if !IdPresent(nid) {
        return NotFound(handle);
      }
      return AskConfirmation(Pending(authorId, handle, nid.value));
    }

    /**
     * A button press on a confirmation prompt (index.js:317-328): only the
     * user who asked may answer, and Confirm saves the row with
     * `INSERT OR REPLACE`. The users table is not consulted again, so a
     * second prompt confirmed later replaces the first registration.
     */
    method Click(pending: Pending, clickerId: string, button: Button) returns (outcome: ClickOutcome)
      modifies this`users
      ensures clickerId != pending.authorId ==> outcome == NotForYou && users == old(users)
      ensures clickerId == pending.authorId && button == CancelButton ==>
                outcome == Cancelled && users == old(users)
      ensures clickerId == pending.authorId && button == ConfirmButton ==>
                && outcome == Registered
                && users == old(users)[pending.authorId := UserRow(pending.handle, Some(pending.numericId))]
      ensures old(users).Keys <= users.Keys
    {
      if clickerId != pending.authorId {
        return NotForYou;
      }
      if button == ConfirmButton {
        users := users[pending.authorId := UserRow(pending.handle, Some(pending.numericId))];
        return Registered;
      }
      return Cancelled;
    }

    /** The admin commands (index.js:364-391). A user who fails the gate is
        ignored; `start` and `end` run the session managers. */
    method RunAdminCommand(authorId: string, memberRoles: set<string>, administrator: bool,
                           command: AdminCommand, channelFound: bool, replies: RepliesLookup)
      returns (outcome: AdminOutcome)
      requires Valid()
      modifies this`settings, this`sessionTweets
      ensures Valid()
      ensures users == old(users)
      ensures !old(IsAdmin(authorId, memberRoles, administrator)) ==>
                outcome == NotAdmin && settings == old(settings) && sessionTweets == old(sessionTweets)
      ensures old(IsAdmin(authorId, memberRoles, administrator)) ==>
                match command
                case SetChannel(channel) =>
                  && sessionTweets == old(sessionTweets)
                  && (channel.None? ==> outcome == MissingMention && settings == old(settings))
                  && (channel.Some? ==> outcome == SettingSaved && settings == old(settings)["channel_id" := channel.value])
                case SetRole(role) =>
                  && sessionTweets == old(sessionTweets)
                  && (role.None? ==> outcome == MissingMention && settings == old(settings))
                  && (role.Some? ==> outcome == SettingSaved && settings == old(settings)["admin_role_id" := role.value])
                case Start =>
                  && settings == old(settings) && sessionTweets == []
                  && outcome == SessionOpened(ChannelConfigured() && channelFound)
                case End =>
                  && settings == old(settings) && sessionTweets == old(sessionTweets)
                  && outcome == SessionClosed(ReportOf(ChannelConfigured() && channelFound, sessionTweets, users, replies))
    {
      if !IsAdmin(authorId, memberRoles, administrator) {
        return NotAdmin;
      }
      match command
      case SetChannel(channel) =>
        if channel.None? {
          return MissingMention;
        }
        settings := settings["channel_id" := channel.value];
        return SettingSaved;
      case SetRole(role) =>
        if role.None? {
          return MissingMention;
        }
        settings := settings["admin_role_id" := role.value];
        return SettingSaved;
      case Start =>
        var announced := OpenSession(channelFound);
        return SessionOpened(announced);
      case End =>
        var report := CloseAndReport(channelFound, replies);
        return SessionClosed(report);
    }
  }
}
