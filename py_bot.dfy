/**
 * main.py, the discord.py bot: settings and registrations live in memory
 * only, registering needs no confirmation and may be repeated, the link
 * collector takes every link in the raid channel from anybody, and the
 * report retries a missing numeric id before scoring.
 *
 * Discord and the lookup service are outside the model: a lookup is a total
 * function from request to response (`Fetched`), a Python exception inside
 * `get_numeric_id` or `check_replies` is the `Raised` case of `Py`, whether
 * `bot.get_channel` finds the raid channel is a boolean input, and the order
 * in which the `participants` set is iterated is an input too.
 */
module PyBot {
  import opened Wrappers
  import opened Json
  import opened Links
  import opened Session
  import opened Scoring
  import opened Handles

  /** main.py:19: this Discord account passes the admin gate everywhere. */
  const SuperAdminId: nat := 1442310589362999428

  /** `requests.get(…/user, params={"username": …}).json()`. */
  type UserLookup = string -> Fetched

  /** `requests.get(…/user-replies-v2, params={"user": …, "count": …}).json()`;
      the user is whatever value was stored as the numeric id. */
  datatype RepliesRequest = RepliesRequest(user: Value, count: string)

  type RepliesLookup = RepliesRequest -> Fetched

  // ---------------------------------------------------------------------
  // Evaluating the guards of get_numeric_id and check_replies
  // ---------------------------------------------------------------------

  /** `outer in data and inner in data[outer]`, left to right: the second
      test only runs when the first holds, and either may raise. */
  function Guard(data: Value, outer: string, inner: string): Py<bool> {
    match PyContains(data, outer)
    case Raised => Raised
    case Done(has) =>
      if !has then Done(false)
      else
        match PyIndex(data, outer)
        case Raised => Raised
        case Done(x) => PyContains(x, inner)
  }

  /** `data[k0][k1]…`. */
  function Path(data: Value, keys: seq<string>): Py<Value>
    decreases |keys|
  {
    if keys == [] then Done(data)
    else
      match PyIndex(data, keys[0])
      case Raised => Raised
      case Done(x) => Path(x, keys[1..])
  }

  // ---------------------------------------------------------------------
  // get_numeric_id (main.py:65-80)
  // ---------------------------------------------------------------------

  /** The body of the `try`: three response layouts tried in order. */
  function NumericIdIn(data: Value): (r: Py<Value>)
    ensures r.Done? && r.result != Null ==> data.Obj?
  {
    match Guard(data, "result", "rest_id")
    case Raised => Raised
    case Done(viaResult) =>
      if viaResult then Path(data, ["result", "rest_id"])
      else
        match Guard(data, "data", "user")
        case Raised => Raised
        case Done(viaData) =>
          if viaData then Path(data, ["data", "user", "result", "rest_id"])
          else
            match PyContains(data, "id")
            case Raised => Raised
            case Done(hasId) => if hasId then PyIndex(data, "id") else Done(Null)
  }

  /** What `get_numeric_id` returns for one response; `Null` is `None`. */
  function NumericIdOf(response: Fetched): (nid: Value)
    ensures nid != Null ==> response.Received? && response.body.Obj?
  {
    match response
    case RequestError => Null
    case Received(data) =>
      match NumericIdIn(data)
      case Raised => Null
      case Done(v) => v
  }

  /** The first layout `get_numeric_id` understands is `result.rest_id`:
      when `'result' in data and 'rest_id' in data['result']` holds, that
      path is read, and `None` comes back if reading it raises; when the
      test itself raises, the answer is `None`. Anything but a JSON object
      yields `None`. */
  lemma NumericIdLayouts(data: Value)
    ensures !data.Obj? ==> NumericIdOf(Received(data)) == Null
    ensures Guard(data, "result", "rest_id") == Raised ==> NumericIdOf(Received(data)) == Null
    ensures Guard(data, "result", "rest_id") == Done(true) ==>
              NumericIdOf(Received(data)) ==
                match Path(data, ["result", "rest_id"])
                case Raised => Null
                case Done(v) => v
    ensures data.Obj? && HasKey(data.members, "result") && Lookup(data.members, "result").Obj?
            && HasKey(Lookup(data.members, "result").members, "rest_id") ==>
              NumericIdOf(Received(data)) == Lookup(Lookup(data.members, "result").members, "rest_id")
  {
    if data.Obj? && HasKey(data.members, "result") && Lookup(data.members, "result").Obj?
       && HasKey(Lookup(data.members, "result").members, "rest_id") {
      assert Path(data, ["result", "rest_id"]) == Done(Lookup(Lookup(data.members, "result").members, "rest_id"));
    }
  }

  /** When the first test is false (no `result`, or a `result` without
      `rest_id`), the nested `data.user` layout is tried next, then a
      top-level `id`, and with none of them the answer is `None`; a test
      that raises gives `None` as well. */
  lemma NumericIdFallbacks(data: Value)
    ensures Guard(data, "result", "rest_id") == Done(false) && Guard(data, "data", "user") == Raised ==>
              NumericIdOf(Received(data)) == Null
    ensures Guard(data, "result", "rest_id") == Done(false) && Guard(data, "data", "user") == Done(true) ==>
              NumericIdOf(Received(data)) ==
                match Path(data, ["data", "user", "result", "rest_id"])
                case Raised => Null
                case Done(v) => v
    ensures Guard(data, "result", "rest_id") == Done(false) && Guard(data, "data", "user") == Done(false)
            && data.Obj? ==>
              NumericIdOf(Received(data)) == if HasKey(data.members, "id") then Lookup(data.members, "id") else Null
  {
  }

  /** A `result` without `rest_id` falls through to the top-level `id`,
      and a `result` that is `null` makes the `in` test raise, which the
      `try` turns into `None`. */
  lemma NumericIdFallThrough()
    ensures NumericIdOf(Received(Obj([Member("result", Obj([])), Member("id", Str("1234567"))]))) == Str("1234567")
    ensures NumericIdOf(Received(Obj([Member("result", Null)]))) == Null
  {
    var both := [Member("result", Obj([])), Member("id", Str("1234567"))];
    assert both[0].key == "result" && both[1].key == "id";
    assert HasKey(both, "result") && Lookup(both, "result") == Obj([]);
    assert !HasKey([], "rest_id");
    assert Guard(Obj(both), "result", "rest_id") == Done(false);
    assert !HasKey(both, "data");
    assert HasKey(both, "id") && Lookup(both, "id") == Str("1234567");
    var nul := [Member("result", Null)];
    assert nul[0].key == "result";
    assert HasKey(nul, "result") && Lookup(nul, "result") == Null;
  }

  // ---------------------------------------------------------------------
  // check_replies (main.py:82-102)
  // ---------------------------------------------------------------------

  /** The `entries` of a reply page: `content.items`, else `data`, else
      nothing. */
  function EntriesOf(data: Value): (e: Py<Value>)
    ensures data.Null? || data.Bool? || data.Num? ==> e == Raised
    ensures data.Obj? && !HasKey(data.members, "content") ==>
              e == if HasKey(data.members, "data") then Done(Lookup(data.members, "data")) else Done(Arr([]))
  {
    match Guard(data, "content", "items")
    case Raised => Raised
    case Done(viaContent) =>
      if viaContent then Path(data, ["content", "items"])
      else
        match PyContains(data, "data")
        case Raised => Raised
        case Done(hasData) => if hasData then PyIndex(data, "data") else Done(Arr([]))
  }

  /** `tweet.get('in_reply_to_status_id_str') or tweet.get('in_reply_to_status_id')`. */
  function ReplyTo(tweet: seq<Member>): (r: Value)
    ensures !HasKey(tweet, "in_reply_to_status_id_str") && !HasKey(tweet, "in_reply_to_status_id") ==> r == Null
    ensures PyTruthy(PyGet(tweet, "in_reply_to_status_id_str")) ==> r == PyGet(tweet, "in_reply_to_status_id_str")
    ensures PyTruthy(r) <==> PyTruthy(PyGet(tweet, "in_reply_to_status_id_str"))
                             || PyTruthy(PyGet(tweet, "in_reply_to_status_id"))
  {
    var viaStr := PyGet(tweet, "in_reply_to_status_id_str");
    if PyTruthy(viaStr) then viaStr else PyGet(tweet, "in_reply_to_status_id")
  }

  /** An entry scores when it answers a tweet whose `str` is a target. */
  predicate Answers(tweet: seq<Member>, targets: seq<string>)
    ensures Answers(tweet, targets) ==>
              targets != [] && (HasKey(tweet, "in_reply_to_status_id_str") || HasKey(tweet, "in_reply_to_status_id"))
  {
    PyTruthy(ReplyTo(tweet)) && PyStr(ReplyTo(tweet)) in targets
  }

  /** The count the loop reaches: one per scoring entry, up to the first
      entry that is not a dict, where `tweet.get` raises and the count so far
      is returned. */
  function CountEntries(tweets: seq<Value>, targets: seq<string>): (n: nat)
    ensures n <= |tweets|
    ensures targets == [] ==> n == 0
  {
    if tweets == [] || !tweets[0].Obj? then 0
    else (if Answers(tweets[0].members, targets) then 1 else 0) + CountEntries(tweets[1..], targets)
  }

  /** The score `check_replies` gives one account. */
  function RepliesScore(numericId: Value, targets: seq<string>, replies: RepliesLookup): (n: nat)
    ensures !PyTruthy(numericId) || targets == [] ==> n == 0
    ensures PyTruthy(numericId) && replies(RepliesRequest(numericId, "40")).RequestError? ==> n == 0
    ensures var page := replies(RepliesRequest(numericId, "40"));
            PyTruthy(numericId) && page.Received? && EntriesOf(page.body).Done? ==>
              && (EntriesOf(page.body).result == Null ==> n == 0)
              && (EntriesOf(page.body).result.Arr? ==> n <= |EntriesOf(page.body).result.items|)
  {
    if !PyTruthy(numericId) then 0
    else
      match replies(RepliesRequest(numericId, "40"))
      case RequestError => 0
      case Received(data) =>
        match EntriesOf(data)
        case Raised => 0
        case Done(entries) =>
          match PyIterate(entries)
          case Raised => 0
          case Done(tweets) => CountEntries(tweets, targets)
  }

  /** main.py:82-102. */
  method CheckReplies(userNumericId: Value, targetTweetIds: seq<string>, replies: RepliesLookup)
    returns (matches: nat)
    ensures matches == RepliesScore(userNumericId, targetTweetIds, replies)
  {
    if !PyTruthy(userNumericId) {
      return 0;
    }
    matches := 0;
    var response := replies(RepliesRequest(userNumericId, "40"));
    if response.RequestError? {
      return;
    }
    var entries := EntriesOf(response.body);
    if entries.Raised? {
      return;
    }
    var iterated := PyIterate(entries.result);
    if iterated.Raised? {
      return;
    }
    var tweets := iterated.result;
    var i := 0;
    while i < |tweets|
      invariant 0 <= i <= |tweets|
      invariant matches + CountEntries(tweets[i..], targetTweetIds) == CountEntries(tweets, targetTweetIds)
    {
      var tweet := tweets[i];
      if !tweet.Obj? {
        return;
      }
      var replyTo := ReplyTo(tweet.members);
      if PyTruthy(replyTo) && PyStr(replyTo) in targetTweetIds {
        matches := matches + 1;
      }
      assert tweets[i..][1..] == tweets[i + 1..];
      i := i + 1;
    }
  }

  /** The score counts reply entries, not distinct tweets: two replies to
      the same session tweet, and nothing else, meet the requirement of a
      three-tweet session. */
  lemma RepeatedRepliesCount()
    ensures var targets := ["101", "102", "103"];
            var reply := Obj([Member("in_reply_to_status_id_str", Str("101"))]);
            && CountEntries([reply, reply], targets) == 2
            && PyRequired(|targets|) == 2
  {
    var targets := ["101", "102", "103"];
    var fields := [Member("in_reply_to_status_id_str", Str("101"))];
    var reply := Obj(fields);
    assert fields[0].key == "in_reply_to_status_id_str";
    assert PyGet(fields, "in_reply_to_status_id_str") == Str("101");
    assert targets[0] == PyStr(Str("101"));
    assert Answers(fields, targets);
    assert CountEntries([reply], targets) == 1 by {
      assert [reply][1..] == [];
    }
    assert [reply, reply][1..] == [reply];
  }

  /** For every reply page: `k` copies of one entry answering a session
      tweet count `k`, whatever the number of session tweets. */
  lemma {:induction false} RepeatedEntriesCount(reply: seq<Member>, targets: seq<string>, k: nat)
    requires Answers(reply, targets)
    ensures CountEntries(seq(k, _ => Obj(reply)), targets) == k
  {
    if k > 0 {
      var copies := seq(k, _ => Obj(reply));
      assert copies[1..] == seq(k - 1, _ => Obj(reply));
      RepeatedEntriesCount(reply, targets, k - 1);
    }
  }

  /** The count stops at the first entry that is not an object, keeping
      what it had. */
  lemma CountStopsAtNonObject(tweets: seq<Value>, targets: seq<string>, k: nat)
    requires k < |tweets| && !tweets[k].Obj?
    requires forall i :: 0 <= i < k ==> tweets[i].Obj?
    ensures CountEntries(tweets, targets) == CountEntries(tweets[..k], targets)
  {
    if k > 0 {
      assert tweets[1..][..k - 1] == tweets[..k][1..];
      CountStopsAtNonObject(tweets[1..], targets, k - 1);
    }
  }

  // ---------------------------------------------------------------------
  // The report (main.py:133-200)
  // ---------------------------------------------------------------------

  /** A value of `registered_users`. */
  datatype UserRecord = UserRecord(handle: string, numericId: Value)

  /** The numeric id a registered user is scored with: the stored one, or a
      fresh lookup of the handle when the stored one is falsy. */
  function ResolvedId(u: UserRecord, lookup: UserLookup): Value {
    if PyTruthy(u.numericId) then u.numericId else NumericIdOf(lookup(u.handle))
  }

  /** A record after the report's retry: a successful lookup is stored. */
  function Retried(u: UserRecord, lookup: UserLookup): (r: UserRecord)
    ensures r.handle == u.handle
    ensures PyTruthy(r.numericId) <==> PyTruthy(ResolvedId(u, lookup))
    ensures ResolvedId(r, lookup) == ResolvedId(u, lookup)
  {
    if PyTruthy(u.numericId) then u
    else
      var nid := NumericIdOf(lookup(u.handle));
      if PyTruthy(nid) then UserRecord(u.handle, nid) else u
  }

  /** The registrations after a report: every participant's record retried. */
  function RetriedAll(users: map<nat, UserRecord>, participants: seq<nat>, lookup: UserLookup)
    : (r: map<nat, UserRecord>)
    ensures r.Keys == users.Keys
    ensures forall k :: k in users && k !in participants ==> r[k] == users[k]
  {
    map k | k in users :: if k in participants then Retried(users[k], lookup) else users[k]
  }

  /** Retrying one more participant, not retried before, updates that
      participant's record alone. */
  lemma RetriedAllStep(users: map<nat, UserRecord>, done: seq<nat>, x: nat, lookup: UserLookup)
    requires x !in done
    ensures RetriedAll(users, done + [x], lookup) ==
              if x in users then RetriedAll(users, done, lookup)[x := Retried(users[x], lookup)]
              else RetriedAll(users, done, lookup)
    ensures x in users ==> RetriedAll(users, done, lookup)[x] == users[x]
  {
    var a, b := RetriedAll(users, done + [x], lookup), RetriedAll(users, done, lookup);
    forall k | k in users && k != x ensures a[k] == b[k] {
      assert k in done + [x] <==> k in done;
    }
  }

  /** One participant's row: unknown users score 0 as "Unknown", users
      without a resolvable id score 0, the others score their reply count
      capped at the number of tweets. */
  function ResultFor(users: map<nat, UserRecord>, dcId: nat, targets: seq<string>,
                     lookup: UserLookup, replies: RepliesLookup): (r: Result<nat>)
    ensures r.id == dcId && r.score <= |targets|
    ensures dcId !in users ==> r.handle == "Unknown" && r.score == 0
    ensures dcId in users ==> r.handle == users[dcId].handle
    ensures dcId in users && !PyTruthy(ResolvedId(users[dcId], lookup)) ==> r.score == 0
    ensures dcId in users && PyTruthy(ResolvedId(users[dcId], lookup)) ==>
              var score := RepliesScore(ResolvedId(users[dcId], lookup), targets, replies);
              r.score == if score < |targets| then score else |targets|
  {
    if dcId !in users then Result(dcId, "Unknown", 0)
    else
      var u := users[dcId];
      var nid := ResolvedId(u, lookup);
      if !PyTruthy(nid) then Result(dcId, u.handle, 0)
      else
        var score := RepliesScore(nid, targets, replies);
        Result(dcId, u.handle, if score < |targets| then score else |targets|)
  }

  function ResultsFor(users: map<nat, UserRecord>, ids: seq<nat>, targets: seq<string>,
                      lookup: UserLookup, replies: RepliesLookup): (rs: seq<Result<nat>>)
    ensures |rs| == |ids|
    ensures forall i :: 0 <= i < |ids| ==> rs[i] == ResultFor(users, ids[i], targets, lookup, replies)
  {
    seq(|ids|, i requires 0 <= i < |ids| => ResultFor(users, ids[i], targets, lookup, replies))
  }

  lemma ResultsForStep(users: map<nat, UserRecord>, ids: seq<nat>, x: nat, targets: seq<string>,
                       lookup: UserLookup, replies: RepliesLookup)
    ensures ResultsFor(users, ids + [x], targets, lookup, replies)
         == ResultsFor(users, ids, targets, lookup, replies) + [ResultFor(users, x, targets, lookup, replies)]
  {
  }

  /** `participants` is iterated in `order`, some enumeration of the set of
      authors. */
  predicate Enumerates(order: seq<nat>, t: Table<nat>) {
    Distinct(order) && Elems(order) == Elems(Authors(t))
  }

  /** What closing a session reports. */
  function ReportOf(channelUsable: bool, t: Table<nat>, order: seq<nat>, users: map<nat, UserRecord>,
                    lookup: UserLookup, replies: RepliesLookup): (r: CloseOutcome<nat>)
    ensures !channelUsable ==> r == NotReported
    ensures channelUsable && t == [] ==> r == NoLinks
    ensures channelUsable && t != [] ==>
              && r.Report? && r.required == PyRequired(|t|)
              && |r.results| == |order| == |r.lines|
              && forall i :: 0 <= i < |r.lines| ==> r.lines[i] == LineOf(r.results[i], r.required)
  {
    if !channelUsable then NotReported
    else if t == [] then NoLinks
    else
      var results := SortByScore(ResultsFor(users, order, Tweets(t), lookup, replies));
      Report(PyRequired(|t|), results, LinesOf(results, PyRequired(|t|)))
  }

  /** The report ranks one row per participant, every author and nobody
      else, none scoring above the number of tweets, and a row is complete
      exactly when its score meets the requirement. */
  lemma ReportOfRanks(channelUsable: bool, t: Table<nat>, order: seq<nat>, users: map<nat, UserRecord>,
                      lookup: UserLookup, replies: RepliesLookup)
    requires Enumerates(order, t)
    ensures var r := ReportOf(channelUsable, t, order, users, lookup, replies);
            r.Report? ==>
              && |r.results| == |order| <= |t|
              && |r.lines| == |r.results|
              && NonIncreasing(r.results)
              && (forall i :: 0 <= i < |r.results| ==> r.results[i].id in Authors(t))
              && (forall a :: a in Authors(t) ==> exists i :: 0 <= i < |r.results| && r.results[i].id == a)
              && (forall i :: 0 <= i < |r.results| ==> r.results[i].score <= |t|)
              && (forall i :: 0 <= i < |r.lines| ==> (r.lines[i].complete <==> r.results[i].score >= r.required))
              && (forall i :: 0 <= i < |r.results| ==>
                    r.results[i] == ResultFor(users, r.results[i].id, Tweets(t), lookup, replies))
  {
    if channelUsable && t != [] {
      var sorted := SortByScore(ResultsFor(users, order, Tweets(t), lookup, replies));
      assert ReportOf(channelUsable, t, order, users, lookup, replies).results == sorted;
      RankedResults(t, order, users, lookup, replies);
      DistinctBound(order, Authors(t));
      forall a ensures a in order <==> a in Authors(t) {
        assert a in Elems(order) <==> a in Elems(Authors(t));
      }
    }
  }

  /** The rows of a report, before they become lines: ranked, one per
      participant, and each its own participant's result. */
  lemma RankedResults(t: Table<nat>, order: seq<nat>, users: map<nat, UserRecord>,
                      lookup: UserLookup, replies: RepliesLookup)
    ensures var sorted := SortByScore(ResultsFor(users, order, Tweets(t), lookup, replies));
            && |sorted| == |order|
            && NonIncreasing(sorted)
            && (forall i :: 0 <= i < |sorted| ==> sorted[i].id in order && sorted[i].score <= |t|)
            && (forall a :: a in order ==> exists i :: 0 <= i < |sorted| && sorted[i].id == a)
            && (forall i :: 0 <= i < |sorted| ==> sorted[i] == ResultFor(users, sorted[i].id, Tweets(t), lookup, replies))
  {
    var rows := ResultsFor(users, order, Tweets(t), lookup, replies);
    var sorted := SortByScore(rows);
    RankedRows(order, rows, |t|);
    forall i | 0 <= i < |sorted| ensures sorted[i] == ResultFor(users, sorted[i].id, Tweets(t), lookup, replies) {
      assert sorted[i] in multiset(sorted);
      assert sorted[i] in multiset(rows);
      var k :| 0 <= k < |rows| && rows[k] == sorted[i];
    }
  }

  /** A duplicate-free enumeration of the elements of `s` is no longer than `s`. */
  lemma {:induction false} DistinctBound(order: seq<nat>, s: seq<nat>)
    requires Distinct(order) && Elems(order) == Elems(s)
    ensures |order| <= |s|
  {
    DistinctCard(order);
    ElemsCard(s);
  }

  lemma {:induction false} DistinctCard(s: seq<nat>)
    requires Distinct(s)
    ensures |Elems(s)| == |s|
  {
    if s != [] {
      var n := |s| - 1;
      assert Distinct(s[..n]);
      DistinctCard(s[..n]);
      assert s == s[..n] + [s[n]];
      assert Elems(s) == Elems(s[..n]) + {s[n]};
      assert s[n] !in Elems(s[..n]);
    }
  }

  lemma {:induction false} ElemsCard(s: seq<nat>)
    ensures |Elems(s)| <= |s|
  {
    if s != [] {
      var n := |s| - 1;
      ElemsCard(s[..n]);
      assert s == s[..n] + [s[n]];
      assert Elems(s) == Elems(s[..n]) + {s[n]};
    }
  }

  // ---------------------------------------------------------------------
  // The bot's state and its handlers
  // ---------------------------------------------------------------------

  /** The admin commands: `setchannel` and `setrole` with the channel or
      role their argument converts to, `forceraid` and `forceclose`. */
  datatype AdminCommand =
    | SetChannel(channel: nat)
    | SetRole(role: nat)
    | ForceRaid
    | ForceClose

  datatype AdminOutcome =
    | NotAdmin
    | SettingSaved
    | SetupChannelFirst
    | SessionOpened(announced: bool)
    | SessionClosed(report: CloseOutcome<nat>)

  class PyRaidBot {
    /** `session_tweets`: tweet id -> Discord id of the poster. */
    var sessionTweets: Table<nat>
    /** `registered_users`: Discord id -> handle and numeric id. */
    var registeredUsers: map<nat, UserRecord>
    /** `SETTINGS["channel_id"]`. */
    var channelId: Option<nat>
    /** `SETTINGS["admin_role_id"]`. */
    var adminRoleId: Option<nat>

    /** Tweet ids are keys of a dict. */
    ghost predicate Valid()
      reads this
    {
      TweetsDistinct(sessionTweets)
    }

    /** The state at start-up: nothing set, nobody registered. */
    constructor ()
      ensures Valid()
      ensures sessionTweets == [] && registeredUsers == map[] && channelId == None && adminRoleId == None
    {
      sessionTweets := [];
      registeredUsers := map[];
      channelId := None;
      adminRoleId := None;
    }

    /** `SETTINGS["channel_id"]` is truthy. */
    predicate ChannelConfigured()
      reads this
    {
      channelId.Some? && channelId.value != 0
    }

    /** `is_admin` (main.py:48-60): the super admin, a holder of the admin
        role when that role still exists in the guild, or a member with the
        Administrator permission. */
    predicate IsAdmin(authorId: nat, authorRoles: set<nat>, guildRoles: set<nat>, administrator: bool)
      reads this
      ensures authorId == SuperAdminId || administrator ==> IsAdmin(authorId, authorRoles, guildRoles, administrator)
      ensures adminRoleId.None? || adminRoleId.value == 0 || adminRoleId.value !in guildRoles ==>
                (IsAdmin(authorId, authorRoles, guildRoles, administrator) <==> authorId == SuperAdminId || administrator)
    {
      || authorId == SuperAdminId
      || (adminRoleId.Some? && adminRoleId.value != 0
          && adminRoleId.value in guildRoles && adminRoleId.value in authorRoles)
      || administrator
    }

    /**
     * `on_message` (main.py:262-274): any link in the raid channel is
     * recorded, from registered and unregistered users alike and however
     * many the author already posted; a tweet id seen before is credited to
     * the new poster. A message from a bot is dropped before anything else
     * (main.py:264); for any other author, command processing follows.
     */
    method OnMessage(message: Message<nat>) returns (collected: Option<string>)
      requires Valid()
      modifies this`sessionTweets
      ensures Valid()
      ensures collected ==
                if !message.authorIsBot && ChannelConfigured() && message.channelId == channelId.value
                then ExtractTweetId(message.content) else None
      ensures collected.Some? ==>
                && sessionTweets == Set(old(sessionTweets), collected.value, message.authorId)
                && AsMap(sessionTweets) == AsMap(old(sessionTweets))[collected.value := message.authorId]
      ensures collected.None? ==> sessionTweets == old(sessionTweets)
    {
      if message.authorIsBot {
        return None;
      }
      collected := None;
      if channelId.Some? && channelId.value != 0 && message.channelId == channelId.value {
        var match_ := ExtractTweetId(message.content);
        if match_.Some? {
          RecordLink(match_.value, message.authorId);
          collected := match_;
        }
      }
    }

    /** `session_tweets[tweet_id] = message.author.id`. */
    method RecordLink(tweetId: string, author: nat)
      requires Valid()
      modifies this`sessionTweets
      ensures Valid()
      ensures sessionTweets == Set(old(sessionTweets), tweetId, author)
      ensures AsMap(sessionTweets) == AsMap(old(sessionTweets))[tweetId := author]
    {
      SetIsUpsert(sessionTweets, tweetId, author);
      sessionTweets := Set(sessionTweets, tweetId, author);
    }

    /** `register` (main.py:249-260): no confirmation and no lock; the
        record is written whether or not the lookup found an id, replacing
        any earlier registration. */
    method Register(authorId: nat, handle: string, lookup: UserLookup) returns (nid: Value)
      modifies this`registeredUsers
      ensures nid == NumericIdOf(lookup(PyCleanHandle(handle)))
      ensures registeredUsers ==
                old(registeredUsers)[authorId := UserRecord(PyCleanHandle(handle), if PyTruthy(nid) then nid else Null)]
    {
      var cleanHandle := Trim(RemoveAll(handle, '@'), PySpace);
      nid := NumericIdOf(lookup(cleanHandle));
      if PyTruthy(nid) {
        registeredUsers := registeredUsers[authorId := UserRecord(cleanHandle, nid)];
      } else {
        registeredUsers := registeredUsers[authorId := UserRecord(cleanHandle, Null)];
      }
    }

    /** `open_session` (main.py:118-131): the table is cleared first. */
    method OpenSession(channelFound: bool) returns (announced: bool)
      modifies this`sessionTweets
      ensures Valid()
      ensures sessionTweets == []
      ensures announced <==> channelId.Some? && channelFound
    {
      sessionTweets := [];
      if channelId.None? || !channelFound {
        return false;
      }
      return true;
    }

    /**
     * `close_and_report` (main.py:133-200). Participants are visited in
     * `order`; a participant whose stored id is falsy is looked up again
     * and a found id is stored back. The session table is left as it is.
     */
    method CloseAndReport(channelFound: bool, order: seq<nat>, lookup: UserLookup, replies: RepliesLookup)
      returns (outcome: CloseOutcome<nat>)
      requires Enumerates(order, sessionTweets)
      modifies this`registeredUsers
      ensures outcome == ReportOf(channelId.Some? && channelFound, sessionTweets, order,
                                  old(registeredUsers), lookup, replies)
      ensures registeredUsers == if outcome.Report? then RetriedAll(old(registeredUsers), order, lookup)
                                 else old(registeredUsers)
    {
      if channelId.None? || !channelFound {
        return NotReported;
      }
      var targetIds := Tweets(sessionTweets);
      if |targetIds| == 0 {
        return NoLinks;
      }
      var results := ScoreParticipants(order, targetIds, lookup, replies);
      results := SortByScore(results);
      var required := if |targetIds| > 1 then |targetIds| - 1 else 1;
      return Report(required, results, LinesOf(results, required));
    }

    /**
     * The scoring loop of `close_and_report` (main.py:149-167): one row per
     * participant in `order`; a participant with a falsy stored id is looked
     * up again, and a found id is written back before scoring.
     */
    method ScoreParticipants(order: seq<nat>, targetIds: seq<string>, lookup: UserLookup, replies: RepliesLookup)
      returns (results: seq<Result<nat>>)
      requires Distinct(order)
      modifies this`registeredUsers
      ensures results == ResultsFor(old(registeredUsers), order, targetIds, lookup, replies)
      ensures registeredUsers == RetriedAll(old(registeredUsers), order, lookup)
    {
      results := [];
      for i := 0 to |order|
        invariant results == ResultsFor(old(registeredUsers), order[..i], targetIds, lookup, replies)
        invariant registeredUsers == RetriedAll(old(registeredUsers), order[..i], lookup)
      {
        var dcId := order[i];
        assert order[..i + 1] == order[..i] + [dcId];
        assert forall j :: 0 <= j < i ==> order[..i][j] != dcId;
        ResultsForStep(old(registeredUsers), order[..i], dcId, targetIds, lookup, replies);
        RetriedAllStep(old(registeredUsers), order[..i], dcId, lookup);
        if dcId !in registeredUsers {
          results := results + [Result(dcId, "Unknown", 0)];
          continue;
        }
        var userData := registeredUsers[dcId];
        if !PyTruthy(userData.numericId) {
          var nid := NumericIdOf(lookup(userData.handle));
          if PyTruthy(nid) {
            userData := UserRecord(userData.handle, nid);
            registeredUsers := registeredUsers[dcId := userData];
          } else {
            results := results + [Result(dcId, userData.handle, 0)];
            continue;
          }
        }
        var score := CheckReplies(userData.numericId, targetIds, replies);
        score := if score < |targetIds| then score else |targetIds|;
        results := results + [Result(dcId, userData.handle, score)];
      }
      assert order[..|order|] == order;
    }

    /** The admin commands (main.py:206-244): a user who fails the gate is
        refused; `forceraid` and `forceclose` need a channel first. */
    method RunAdminCommand(authorId: nat, authorRoles: set<nat>, guildRoles: set<nat>, administrator: bool,
                           command: AdminCommand, channelFound: bool, order: seq<nat>,
                           lookup: UserLookup, replies: RepliesLookup)
      returns (outcome: AdminOutcome)
      requires Valid()
      requires Enumerates(order, sessionTweets)
      modifies this`channelId, this`adminRoleId, this`sessionTweets, this`registeredUsers
      ensures Valid()
      ensures !old(IsAdmin(authorId, authorRoles, guildRoles, administrator)) ==>
                && outcome == NotAdmin
                && channelId == old(channelId) && adminRoleId == old(adminRoleId)
                && sessionTweets == old(sessionTweets) && registeredUsers == old(registeredUsers)
      ensures old(IsAdmin(authorId, authorRoles, guildRoles, administrator)) ==>
                match command
                case SetChannel(channel) =>
                  && outcome == SettingSaved && channelId == Some(channel) && adminRoleId == old(adminRoleId)
                  && sessionTweets == old(sessionTweets) && registeredUsers == old(registeredUsers)
                case SetRole(role) =>
                  && outcome == SettingSaved && adminRoleId == Some(role) && channelId == old(channelId)
                  && sessionTweets == old(sessionTweets) && registeredUsers == old(registeredUsers)
                case ForceRaid =>
                  && channelId == old(channelId) && adminRoleId == old(adminRoleId)
                  && registeredUsers == old(registeredUsers)
                  && (!old(ChannelConfigured()) ==> outcome == SetupChannelFirst && sessionTweets == old(sessionTweets))
                  && (old(ChannelConfigured()) ==> outcome == SessionOpened(channelFound) && sessionTweets == [])
                case ForceClose =>
                  && channelId == old(channelId) && adminRoleId == old(adminRoleId)
                  && sessionTweets == old(sessionTweets)
                  && (!old(ChannelConfigured()) ==> outcome == SetupChannelFirst && registeredUsers == old(registeredUsers))
                  && (old(ChannelConfigured()) ==>
                        var report := ReportOf(channelFound, sessionTweets, order, old(registeredUsers), lookup, replies);
                        && outcome == SessionClosed(report)
                        && registeredUsers == if report.Report? then RetriedAll(old(registeredUsers), order, lookup)
                                              else old(registeredUsers))
    {
      if !IsAdmin(authorId, authorRoles, guildRoles, administrator) {
        return NotAdmin;
      }
      match command
      case SetChannel(channel) =>
        channelId := Some(channel);
        return SettingSaved;
      case SetRole(role) =>
        adminRoleId := Some(role);
        return SettingSaved;
      case ForceRaid =>
        if !ChannelConfigured() {
          return SetupChannelFirst;
        }
        var announced := OpenSession(channelFound);
        return SessionOpened(announced);
      case ForceClose =>
        if !ChannelConfigured() {
          return SetupChannelFirst;
        }
        var report := CloseAndReport(channelFound, order, lookup, replies);
        return SessionClosed(report);
    }
  }

  /** Unlike index.js, the collector keeps every link an author posts: a
      new tweet from an author who already has one makes a second entry. */
  lemma CollectorAllowsSecondLink(t: Table<nat>, tweet: string, author: nat)
    requires tweet !in Tweets(t)
    requires author in Authors(t)
    ensures !OneLinkPerAuthor(Set(t, tweet, author))
  {
    SetAppends(t, tweet, author);
    var k :| 0 <= k < |Authors(t)| && Authors(t)[k] == author;
    var r := Set(t, tweet, author);
    assert r[k].author == author && r[|t|].author == author;
  }
}
