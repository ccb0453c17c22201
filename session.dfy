/**
 * The submission table of the current raid session (`sessionTweets` in
 * index.js, `session_tweets` in main.py): tweet id -> the Discord user the
 * link is credited to. Both a JavaScript `Map` and a Python `dict` iterate
 * in first-insertion order and keep a key's position when it is assigned
 * again, so the table is a sequence of entries with distinct tweet ids.
 */
module Session {

  datatype Submission<A> = Submission(tweet: string, author: A)

  type Table<A> = seq<Submission<A>>

  /** No element occurs twice. */
  predicate Distinct<T(==)>(s: seq<T>) {
    forall i, j :: 0 <= i < j < |s| ==> s[i] != s[j]
  }

  /** The set of elements of a sequence. */
  function Elems<T>(s: seq<T>): set<T> {
    set x | x in s
  }

  lemma ElemsConcat<T>(a: seq<T>, b: seq<T>)
    ensures Elems(a + b) == Elems(a) + Elems(b)
  {
    forall x | x in Elems(a) + Elems(b) ensures x in Elems(a + b) {
      if x in a {
        var i :| 0 <= i < |a| && a[i] == x;
        assert (a + b)[i] == x;
      } else {
        var i :| 0 <= i < |b| && b[i] == x;
        assert (a + b)[|a| + i] == x;
      }
    }
  }

  /** The parts of a Discord message the link collector reads. */
  datatype Message<Id> = Message(authorId: Id, authorIsBot: bool, channelId: Id, content: string)

  /** `Array.from(sessionTweets.keys())` / `list(session_tweets.keys())`. */
  function Tweets<A>(t: Table<A>): (r: seq<string>)
    ensures |r| == |t| && forall i :: 0 <= i < |t| ==> r[i] == t[i].tweet
  {
    seq(|t|, i requires 0 <= i < |t| => t[i].tweet)
  }

  /** `sessionTweets.values()` / `session_tweets.values()`, in order. */
  function Authors<A>(t: Table<A>): (r: seq<A>)
    ensures |r| == |t| && forall i :: 0 <= i < |t| ==> r[i] == t[i].author
  {
    seq(|t|, i requires 0 <= i < |t| => t[i].author)
  }

  /** A map holds each key once. */
  predicate TweetsDistinct<A>(t: Table<A>) {
    forall i, j :: 0 <= i < j < |t| ==> t[i].tweet != t[j].tweet
  }

  /** The collector's rule in index.js: each author owns at most one link. */
  predicate OneLinkPerAuthor<A(==)>(t: Table<A>) {
    forall i, j :: 0 <= i < j < |t| ==> t[i].author != t[j].author
  }

  /** The table read as a plain dictionary. */
  function AsMap<A>(t: Table<A>): map<string, A> {
    if t == [] then map[] else AsMap(t[1..])[t[0].tweet := t[0].author]
  }

  /** `sessionTweets.set(tweet, author)` / `session_tweets[tweet] = author`:
      an existing entry for `tweet` is overwritten where it stands, otherwise
      the entry is appended. Nothing but that one entry is touched. */
  function Set<A>(t: Table<A>, tweet: string, author: A): (r: Table<A>)
    ensures Submission(tweet, author) in r
    ensures |t| <= |r| <= |t| + 1
  {
    if t == [] then [Submission(tweet, author)]
    else if t[0].tweet == tweet then [Submission(tweet, author)] + t[1..]
    else [t[0]] + Set(t[1..], tweet, author)
  }

  /** `Set` is an upsert: the dictionary gains or overwrites exactly the one
      key, a new key goes last, an existing key keeps its place. */
  lemma SetIsUpsert<A>(t: Table<A>, tweet: string, author: A)
    requires TweetsDistinct(t)
    ensures TweetsDistinct(Set(t, tweet, author))
    ensures AsMap(Set(t, tweet, author)) == AsMap(t)[tweet := author]
    ensures Tweets(Set(t, tweet, author))
         == if tweet in Tweets(t) then Tweets(t) else Tweets(t) + [tweet]
  {
    SetTweets(t, tweet, author);
    SetAsMap(t, tweet, author);
  }

  lemma SetTweets<A>(t: Table<A>, tweet: string, author: A)
    requires TweetsDistinct(t)
    ensures TweetsDistinct(Set(t, tweet, author))
    ensures Tweets(Set(t, tweet, author))
         == if tweet in Tweets(t) then Tweets(t) else Tweets(t) + [tweet]
  {
    SetTweetsOrder(t, tweet, author);
    var r := Set(t, tweet, author);
    var keys := Tweets(r);
    assert forall i, j :: 0 <= i < j < |r| ==> keys[i] != keys[j];
  }

  lemma SetTweetsOrder<A>(t: Table<A>, tweet: string, author: A)
    ensures Tweets(Set(t, tweet, author))
         == if tweet in Tweets(t) then Tweets(t) else Tweets(t) + [tweet]
  {
    if tweet in Tweets(t) {
      SetExistingTweet(t, tweet, author);
    } else {
      SetNewTweet(t, tweet, author);
    }
  }

  lemma TweetsCons<A>(x: Submission<A>, rest: Table<A>)
    ensures Tweets([x] + rest) == [x.tweet] + Tweets(rest)
  {
    var l := Tweets([x] + rest);
    var r := [x.tweet] + Tweets(rest);
    forall i | 0 <= i < |l| ensures l[i] == r[i] {
      if i > 0 {
        assert ([x] + rest)[i] == rest[i - 1];
      }
    }
  }

  lemma {:induction false} SetExistingTweet<A>(t: Table<A>, tweet: string, author: A)
    requires tweet in Tweets(t)
    ensures Tweets(Set(t, tweet, author)) == Tweets(t)
  {
    var rest := t[1..];
    assert t == [t[0]] + rest;
    TweetsCons(t[0], rest);
    if t[0].tweet != tweet {
      SetExistingTweet(rest, tweet, author);
      TweetsCons(t[0], Set(rest, tweet, author));
    } else {
      TweetsCons(Submission(tweet, author), rest);
    }
  }

  lemma {:induction false} SetNewTweet<A>(t: Table<A>, tweet: string, author: A)
    requires tweet !in Tweets(t)
    ensures Tweets(Set(t, tweet, author)) == Tweets(t) + [tweet]
  {
    if t != [] {
      var rest := t[1..];
      assert t == [t[0]] + rest;
      TweetsCons(t[0], rest);
      SetNewTweet(rest, tweet, author);
      TweetsCons(t[0], Set(rest, tweet, author));
    } else {
      assert Tweets([Submission(tweet, author)]) == [tweet];
    }
  }

  lemma {:induction false} SetAsMap<A>(t: Table<A>, tweet: string, author: A)
    ensures AsMap(Set(t, tweet, author)) == AsMap(t)[tweet := author]
  {
    if t != [] {
      var rest := t[1..];
      var r := Set(t, tweet, author);
      if t[0].tweet != tweet {
        SetAsMap(rest, tweet, author);
        assert r[1..] == Set(rest, tweet, author);
        assert AsMap(r) == AsMap(rest)[tweet := author][t[0].tweet := t[0].author];
        MapUpdatesCommute(AsMap(rest), tweet, author, t[0].tweet, t[0].author);
      } else {
        assert r[1..] == rest;
        assert AsMap(r) == AsMap(rest)[tweet := author];
        assert AsMap(t) == AsMap(rest)[tweet := t[0].author];
      }
    }
  }

  lemma MapUpdatesCommute<A>(m: map<string, A>, k1: string, v1: A, k2: string, v2: A)
    requires k1 != k2
    ensures m[k1 := v1][k2 := v2] == m[k2 := v2][k1 := v1]
  {
  }

  /** Every entry after `Set` is the new one or was there before. */
  lemma {:induction false} SetEntries<A>(t: Table<A>, tweet: string, author: A, i: nat)
    requires i < |Set(t, tweet, author)|
    ensures Set(t, tweet, author)[i] == Submission(tweet, author) || Set(t, tweet, author)[i] in t
  {
    if t != [] && t[0].tweet != tweet && i > 0 {
      SetEntries(t[1..], tweet, author, i - 1);
    } else if t != [] && i > 0 {
      assert Set(t, tweet, author)[i] == t[i];
    }
  }

  /** The collector in index.js keeps each author to one link: an author who
      owns no link yet may add one, even over another author's tweet id. */
  lemma {:induction false} SetKeepsOneLinkPerAuthor<A>(t: Table<A>, tweet: string, author: A)
    requires OneLinkPerAuthor(t)
    requires author !in Authors(t)
    ensures OneLinkPerAuthor(Set(t, tweet, author))
  {
    if t == [] {
    } else if t[0].tweet == tweet {
      assert forall i :: 1 <= i < |t| ==> t[i].author == Authors(t)[i];
    } else {
      var rest := t[1..];
      assert Authors(t) == [t[0].author] + Authors(rest);
      SetKeepsOneLinkPerAuthor(rest, tweet, author);
      var r' := Set(rest, tweet, author);
      forall i | 0 <= i < |r'|
        ensures r'[i].author != t[0].author
      {
        SetEntries(rest, tweet, author, i);
      }
    }
  }

  /** `new Set(values)` in JavaScript: each value once, in order of first
      appearance. */
  function Dedup<A(==)>(xs: seq<A>): (r: seq<A>)
    ensures forall i :: 0 <= i < |r| ==> r[i] in xs
    ensures forall i :: 0 <= i < |xs| ==> xs[i] in r
    ensures forall i, j :: 0 <= i < j < |r| ==> r[i] != r[j]
    ensures forall i, j, l :: 0 <= i < j < |r| && 0 <= l < |xs| && xs[l] == r[j] ==> r[i] in xs[..l]
  {
    if xs == [] then []
    else
      var init := xs[..|xs| - 1];
      var d := Dedup(init);
      var last := xs[|xs| - 1];
      assert forall i :: 0 <= i < |xs| - 1 ==> xs[i] == init[i];
      assert forall l :: 0 <= l < |xs| - 1 ==> xs[..l] == init[..l];
      var r := if last in d then d else d + [last];
      assert forall i, j, l :: 0 <= i < j < |r| && 0 <= l < |xs| && xs[l] == r[j] ==> r[i] in xs[..l] by {
        forall i, j, l | 0 <= i < j < |r| && 0 <= l < |xs| && xs[l] == r[j]
          ensures r[i] in xs[..l]
        {
          assert r[i] in init;
          if l == |xs| - 1 {
            assert xs[..l] == init;
          } else {
            assert r[j] == init[l] && init[l] in d;
            assert j < |d| && r[i] == d[i] && r[j] == d[j];
          }
        }
      }
      r
  }

  /** Where the values are distinct already, `new Set` keeps them as they are. */
  lemma {:induction false} DedupOfDistinct<A>(xs: seq<A>)
    requires forall i, j :: 0 <= i < j < |xs| ==> xs[i] != xs[j]
    ensures Dedup(xs) == xs
  {
    if xs != [] {
      var init := xs[..|xs| - 1];
      DedupOfDistinct(init);
      assert xs[|xs| - 1] !in init;
      assert init + [xs[|xs| - 1]] == xs;
    }
  }

  /** A new tweet id goes at the end and leaves the other entries alone. */
  lemma {:induction false} SetAppends<A>(t: Table<A>, tweet: string, author: A)
    requires tweet !in Tweets(t)
    ensures Set(t, tweet, author) == t + [Submission(tweet, author)]
  {
    if t != [] {
      assert Tweets(t)[0] == t[0].tweet;
      assert forall i :: 0 <= i < |t| - 1 ==> Tweets(t[1..])[i] == Tweets(t)[i + 1];
      SetAppends(t[1..], tweet, author);
      assert t == [t[0]] + t[1..];
    }
  }

  /** Accepting a first link from a new author keeps both table
      invariants and records the link under its tweet id. */
  lemma SetKeepsInvariants<A>(t: Table<A>, tweet: string, author: A)
    requires TweetsDistinct(t) && OneLinkPerAuthor(t)
    requires author !in Authors(t)
    ensures TweetsDistinct(Set(t, tweet, author)) && OneLinkPerAuthor(Set(t, tweet, author))
    ensures AsMap(Set(t, tweet, author)) == AsMap(t)[tweet := author]
  {
    SetIsUpsert(t, tweet, author);
    SetKeepsOneLinkPerAuthor(t, tweet, author);
  }

  /** The participants of a session: the distinct authors, in the order
      they first posted. */
  function Participants<A(==)>(t: Table<A>): seq<A> {
    Dedup(Authors(t))
  }

  /** Under the one-link rule every author's link is its own entry, so the
      participants are simply the authors, one per tweet. */
  lemma ParticipantsOneEach<A>(t: Table<A>)
    requires OneLinkPerAuthor(t)
    ensures Participants(t) == Authors(t)
    ensures |Participants(t)| == |Tweets(t)|
  {
    DedupOfDistinct(Authors(t));
  }
}
