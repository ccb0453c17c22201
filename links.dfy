/**
 * The link collector's pattern `/status\/(\d+)/` (index.js:243,
 * main.py:268): the first place in a message where `status/` is followed
 * by a digit, and the whole run of digits there.
 */
module Links {
  import opened Wrappers

  predicate IsDigit(c: char) {
    '0' <= c <= '9'
  }

  predicate AllDigits(s: string) {
    forall i :: 0 <= i < |s| ==> IsDigit(s[i])
  }

  /** The pattern matches at position i: `status/` and at least one digit. */
  predicate MatchesAt(text: string, i: nat) {
    i + 8 <= |text| && text[i..i + 7] == "status/" && IsDigit(text[i + 7])
  }

  /** No match starts before position i. */
  predicate NoMatchBefore(text: string, i: nat) {
    forall j: nat :: j < i ==> !MatchesAt(text, j)
  }

  /** The pattern matches at i and its group, taken greedily, is `id`. */
  predicate CapturesAt(text: string, i: nat, id: string) {
    && MatchesAt(text, i)
    && i + 7 + |id| <= |text|
    && text[i + 7..i + 7 + |id|] == id
    && AllDigits(id)
    && (i + 7 + |id| == |text| || !IsDigit(text[i + 7 + |id|]))
  }

  /** The length of the run of digits that starts at position i. */
  function DigitRun(text: string, i: nat): (n: nat)
    requires i <= |text|
    ensures i + n <= |text|
    ensures forall j :: i <= j < i + n ==> IsDigit(text[j])
    ensures i + n == |text| || !IsDigit(text[i + n])
    decreases |text| - i
  {
    if i < |text| && IsDigit(text[i]) then 1 + DigitRun(text, i + 1) else 0
  }

  /** Where the leftmost match at or after `from` starts, if any. */
  function FindMatch(text: string, from: nat): (r: Option<nat>)
    ensures r.Some? ==> from <= r.value && MatchesAt(text, r.value)
    ensures r.Some? ==> forall j: nat :: from <= j < r.value ==> !MatchesAt(text, j)
    ensures r.None? ==> forall j: nat :: from <= j ==> !MatchesAt(text, j)
    decreases |text| - from
  {
    if from + 8 > |text| then None
    else if MatchesAt(text, from) then Some(from)
    else FindMatch(text, from + 1)
  }

  /** `match[1]` of `content.match(/status\/(\d+)/)`, or no match. */
  function ExtractTweetId(text: string): (r: Option<string>)
    ensures r.None? <==> NoMatchBefore(text, |text|)
    ensures r.Some? ==> |r.value| >= 1
    ensures r.Some? ==> exists i: nat | i <= |text| :: NoMatchBefore(text, i) && CapturesAt(text, i, r.value)
  {
    match FindMatch(text, 0)
    case None => None
    case Some(i) =>
      var id := text[i + 7..i + 7 + DigitRun(text, i + 7)];
      assert CapturesAt(text, i, id);
      Some(id)
  }

  /** The two hosts a tweet link is posted from. */
  predicate KnownHost(host: string) {
    host == "x.com" || host == "twitter.com"
  }

  predicate IsHandle(user: string) {
    forall i :: 0 <= i < |user| ==> user[i] != '/'
  }

  /** A tweet link as the platform shows it; `user` is `i` for the
      `/i/status/<id>` form. */
  function TweetUrl(host: string, user: string, id: string): string {
    "https://" + host + "/" + user + "/status/" + id
  }

  /** The collector reads back the id of every `.../status/<id>` link,
      whatever text follows it (as long as it does not extend the digits). */
  lemma ExtractFromTweetUrl(host: string, user: string, id: string, rest: string)
    requires KnownHost(host) && IsHandle(user)
    requires |id| >= 1 && AllDigits(id)
    requires rest == [] || !IsDigit(rest[0])
    ensures ExtractTweetId(TweetUrl(host, user, id) + rest) == Some(id)
  {
    var text := TweetUrl(host, user, id) + rest;
    var start := |"https://" + host + "/"| + |user| + 1;
    forall j: nat | j < start
      ensures !MatchesAt(text, j)
    {
      NoMatchInsideUrl(host, user, id, rest, j);
    }
    assert text == ("https://" + host + "/" + user + "/") + "status/" + id + rest;
    assert text[start..start + 7] == "status/";
    assert text[start + 7..start + 7 + |id|] == id;
    assert text[start + 7] == id[0];
    assert start + 7 + |id| == |text| || text[start + 7 + |id|] == rest[0];
    ExtractAt(text, start, id);
  }

  /** Conversely to `ExtractTweetId`'s contract: at the first match, the
      extracted id is the greedy run of digits captured there. */
  lemma ExtractAt(text: string, i: nat, id: string)
    requires NoMatchBefore(text, i) && CapturesAt(text, i, id)
    ensures ExtractTweetId(text) == Some(id)
  {
    assert FindMatch(text, 0) == Some(i);
    DigitRunOf(text, i + 7, id);
  }

  /** A run of digits that ends at the end of the text or before a
      non-digit is exactly what `DigitRun` measures. */
  lemma DigitRunOf(text: string, i: nat, id: string)
    requires i + |id| <= |text| && text[i..i + |id|] == id && AllDigits(id)
    requires i + |id| == |text| || !IsDigit(text[i + |id|])
    ensures DigitRun(text, i) == |id|
  {
    assert forall k :: i <= k < i + |id| ==> IsDigit(text[k]) by {
      forall k | i <= k < i + |id| ensures IsDigit(text[k]) {
        assert text[k] == id[k - i];
      }
    }
  }

  /** No match can start in the scheme, host, user or `status` parts of a
      tweet link: those hold no digit, or no `/` where the pattern needs one. */
  lemma NoMatchInsideUrl(host: string, user: string, id: string, rest: string, j: nat)
    requires KnownHost(host) && IsHandle(user)
    requires j < |"https://" + host + "/"| + |user| + 1
    ensures !MatchesAt(TweetUrl(host, user, id) + rest, j)
  {
    var text := TweetUrl(host, user, id) + rest;
    var head := "https://" + host + "/";
    var start := |head| + |user| + 1;
    assert text == head + user + "/" + "status/" + id + rest;
    if j + 7 < |head| {
      assert text[j + 7] == head[j + 7];
      assert !IsDigit(head[j + 7]);
    } else if j + 7 == |head| {
      assert text[j] == head[j] != 's';
      assert text[j..j + 7][0] != "status/"[0];
    } else if j + 7 < start {
      assert text[j + 6] == user[j + 6 - |head|] != '/';
      assert text[j..j + 7][6] != "status/"[6];
    } else if j + 7 == start {
      assert text[j + 7] == 's';
    } else {
      assert text[j + 6] == "status/"[j + 6 - start] != '/';
      assert text[j..j + 7][6] != "status/"[6];
    }
  }
}
