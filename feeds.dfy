/**
 * What both crawlers share: the parsed feed item, the outcome of fetching one
 * feed, the `items.slice(0, 20)` window and the concatenation of the records
 * of the sources in registry order.
 */
module Feeds {
  import opened Wrappers
  import opened Text

  /** One parsed RSS item; every field may be absent. */
  datatype FeedItem = FeedItem(
    title: Option<string>,
    link: Option<string>,
    contentSnippet: Option<string>,
    content: Option<string>,
    pubDate: Option<string>)

  /** Fetching and parsing one feed URL: its items, or the error it threw. */
  type FetchResult = Result<seq<FeedItem>, string>

  const MaxItemsPerFeed: nat := 20
  const MaxContentLength: nat := 500

  /** `x || fallback` for a possibly absent string: the empty string is falsy. */
  function OrElse(x: Option<string>, fallback: string): (r: string)
    ensures r == fallback || (x == Some(r) && r != "")
    ensures (x.Some? && x.value != "") ==> r == x.value
  {
    if x.Some? && x.value != "" then x.value else fallback
  }

  /** `items.slice(0, 20)`. */
  function Window(items: seq<FeedItem>): (w: seq<FeedItem>)
    ensures |w| <= MaxItemsPerFeed
    ensures |w| == if |items| < MaxItemsPerFeed then |items| else MaxItemsPerFeed
    ensures w == items[..|w|]
  {
    if |items| <= MaxItemsPerFeed then items else items[..MaxItemsPerFeed]
  }

  /** What `f` yields for each element of `xs`, concatenated in order (a loop pushing `...f(x)` for each `x`). */
  function Gather<S, T>(xs: seq<S>, f: S -> seq<T>): seq<T>
  {
    if xs == [] then [] else Gather(xs[..|xs| - 1], f) + f(xs[|xs| - 1])
  }

  /** One more element appends what it yields. */
  lemma GatherStep<S, T>(xs: seq<S>, f: S -> seq<T>, i: nat)
    requires i < |xs|
    ensures Gather(xs[..i + 1], f) == Gather(xs[..i], f) + f(xs[i])
  {
    assert xs[..i + 1][..i] == xs[..i];
  }

  /** Gathering over two pieces is gathering over each and concatenating. */
  lemma {:induction false} GatherAppend<S, T>(a: seq<S>, b: seq<S>, f: S -> seq<T>)
    ensures Gather(a + b, f) == Gather(a, f) + Gather(b, f)
    decreases |b|
  {
    if b == [] {
      assert a + b == a;
    } else {
      var n := |b| - 1;
      assert (a + b)[..|a + b| - 1] == a + b[..n];
      GatherAppend(a, b[..n], f);
    }
  }

  /** An element that yields nothing can be removed without changing the result. */
  lemma GatherWithoutEmpty<S, T>(xs: seq<S>, f: S -> seq<T>, k: nat)
    requires k < |xs| && f(xs[k]) == []
    ensures Gather(xs, f) == Gather(xs[..k] + xs[k + 1..], f)
  {
    assert xs == xs[..k + 1] + xs[k + 1..];
    GatherAppend(xs[..k + 1], xs[k + 1..], f);
    GatherStep(xs, f, k);
    GatherAppend(xs[..k], xs[k + 1..], f);
  }

  /** Everything gathered comes from some element, and everything every element yields is gathered. */
  lemma {:induction false} GatherMembers<S, T>(xs: seq<S>, f: S -> seq<T>, x: T)
    ensures x in Gather(xs, f) <==> exists k :: 0 <= k < |xs| && x in f(xs[k])
    decreases |xs|
  {
    if xs != [] {
      var n := |xs| - 1;
      GatherMembers(xs[..n], f, x);
      if x in f(xs[n]) {
        assert x in Gather(xs, f);
      }
      if exists k :: 0 <= k < n && x in f(xs[..n][k]) {
        assert x in Gather(xs[..n], f);
      }
      if x in Gather(xs[..n], f) {
        var k :| 0 <= k < n && x in f(xs[..n][k]);
        assert x in f(xs[k]);
      }
    }
  }

  /** `keywords.some((kw) => text.includes(kw))`. */
  predicate MentionsAny(text: string, keywords: seq<string>) {
    exists k | 0 <= k < |keywords| :: Contains(text, keywords[k])
  }

  /** Text appended after a keyword never hides it. */
  lemma MentionsAnyExtended(text: string, more: string, keywords: seq<string>)
    requires MentionsAny(text, keywords)
    ensures MentionsAny(text + more, keywords)
  {
    var k :| 0 <= k < |keywords| && Contains(text, keywords[k]);
    ContainsInPrefix(text, more, keywords[k]);
  }

  /** How a title is searched for a vocabulary entry: as written, or both lower-cased. */
  predicate MatchesKeyword(title: string, keyword: string, foldCase: bool) {
    if foldCase then Contains(ToLower(title), ToLower(keyword)) else Contains(title, keyword)
  }

  /** `vocabulary.filter((kw) => title.includes(kw))`, with or without lower-casing. */
  function KeywordsIn(title: string, vocabulary: seq<string>, foldCase: bool): (r: seq<string>)
    ensures |r| <= |vocabulary|
    ensures forall kw :: kw in r <==> kw in vocabulary && MatchesKeyword(title, kw, foldCase)
    ensures IsSubsequence(r, vocabulary)
  {
    if vocabulary == [] then []
    else
      var rest := KeywordsIn(title, vocabulary[1..], foldCase);
      if MatchesKeyword(title, vocabulary[0], foldCase) then
        [vocabulary[0]] + rest
      else
        rest
  }

  /** The values of the present entries, in order (the records a push-loop collects). */
  function Present<T>(opts: seq<Option<T>>): (r: seq<T>)
    ensures |r| <= |opts|
  {
    if opts == [] then []
    else
      var n := |opts| - 1;
      Present(opts[..n]) + (if opts[n].Some? then [opts[n].value] else [])
  }

  lemma {:induction false} PresentMembers<T>(opts: seq<Option<T>>, x: T)
    ensures x in Present(opts) <==> exists i :: 0 <= i < |opts| && opts[i] == Some(x)
    decreases |opts|
  {
    if opts != [] {
      var n := |opts| - 1;
      PresentMembers(opts[..n], x);
      if exists i :: 0 <= i < n && opts[..n][i] == Some(x) {
        assert x in Present(opts[..n]);
      }
      if x in Present(opts[..n]) {
        var i :| 0 <= i < n && opts[..n][i] == Some(x);
        assert opts[i] == Some(x);
      }
    }
  }
}
