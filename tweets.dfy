/** Automatic tweet generation: the language model is asked for three tweets,
    one per line, and its answer is cut into tweets. The request and the prompt
    are outside; the answer's text (or its absence) is the input here. */
module TweetGeneration {
  import opened Records
  import opened Text
  import Seqs

  /** Tweets kept from one answer. */
  const MaxTweets: nat := 3

  /** The message of the error raised whenever generation fails. */
  const FailureMessage := "No se pudieron generar los tweets. Por favor, intenta de nuevo."

  /** What the caller gets: the tweets, or the error thrown. */
  datatype Generated = Tweets(tweets: seq<string>) | Thrown(message: string)

  /** `lines.filter(tweet => tweet.trim().length > 0)`. */
  function NonBlank(lines: seq<string>): (r: seq<string>)
    ensures |r| <= |lines|
    ensures forall i :: 0 <= i < |r| ==> !AllSpace(r[i]) && r[i] in lines
  {
    if lines == [] then []
    else (if |Trim(lines[0])| > 0 then [lines[0]] else []) + NonBlank(lines[1..])
  }

  /** The non-blank lines keep the order of the lines. */
  lemma {:induction false} NonBlankSublist(lines: seq<string>)
    ensures Seqs.Sublist(NonBlank(lines), lines)
  {
    if lines != [] {
      NonBlankSublist(lines[1..]);
      var rest := NonBlank(lines[1..]);
      if |Trim(lines[0])| > 0 {
        var kept := [lines[0]] + rest;
        assert kept[1..] == rest && kept[0] == lines[0];
      } else {
        assert NonBlank(lines) == rest;
        Seqs.SublistOfTail(rest, lines);
      }
    }
  }

  /** The non-blank lines are the lines minus the blank ones, in order. */
  lemma {:induction false} NonBlankSpec(lines: seq<string>, l: string)
    ensures l in NonBlank(lines) <==> l in lines && !AllSpace(l)
  {
    if lines != [] {
      NonBlankSpec(lines[1..], l);
      var head, tail := lines[0], lines[1..];
      var rest := NonBlank(tail);
      assert l in lines <==> l == head || l in tail by {
        assert lines == [head] + tail;
      }
      if |Trim(head)| > 0 {
        assert NonBlank(lines) == [head] + rest;
        assert l in NonBlank(lines) <==> l == head || l in rest;
      } else {
        assert AllSpace(head);
        assert NonBlank(lines) == rest;
      }
    }
  }

  /** A line is kept as often as it occurs unless it is blank: repeated lines
      are not merged. */
  lemma {:induction false} NonBlankCount(lines: seq<string>, l: string)
    ensures multiset(NonBlank(lines))[l] == if AllSpace(l) then 0 else multiset(lines)[l]
  {
    if lines != [] {
      NonBlankCount(lines[1..], l);
      assert lines == [lines[0]] + lines[1..];
    }
  }

  /** `content.split('\n').filter(...).slice(0, 3)`. */
  function ExtractTweets(content: string): (tweets: seq<string>)
    ensures |tweets| <= MaxTweets
    ensures forall i :: 0 <= i < |tweets| ==> Trim(tweets[i]) != [] && '\n' !in tweets[i]
  {
    var lines := NonBlank(SplitLines(content));
    if |lines| <= MaxTweets then lines else lines[..MaxTweets]
  }

  /** The tweets are whole lines of the answer, untrimmed, in their order: the
      first non-blank lines, three of them unless the answer has fewer. */
  lemma ExtractTweetsSpec(content: string)
    ensures var tweets := ExtractTweets(content);
      var lines := NonBlank(SplitLines(content));
      && tweets <= lines
      && |tweets| == (if |lines| < MaxTweets then |lines| else MaxTweets)
      && Seqs.Sublist(tweets, SplitLines(content))
      && forall i :: 0 <= i < |tweets| ==> tweets[i] in SplitLines(content)
  {
    var lines := NonBlank(SplitLines(content));
    NonBlankSublist(SplitLines(content));
    PrefixSublist(ExtractTweets(content), lines, SplitLines(content));
    forall i | 0 <= i < |ExtractTweets(content)| ensures ExtractTweets(content)[i] in SplitLines(content) {
      NonBlankSpec(SplitLines(content), ExtractTweets(content)[i]);
    }
  }

  /** A prefix of a sublist of `c` is a sublist of `c`. */
  lemma {:induction false} PrefixSublist(a: seq<string>, b: seq<string>, c: seq<string>)
    requires a <= b && Seqs.Sublist(b, c)
    ensures Seqs.Sublist(a, c)
    decreases |c|
  {
    if a != [] {
      assert b != [] && c != [] && a[0] == b[0];
      if b[0] == c[0] {
        PrefixSublist(a[1..], b[1..], c[1..]);
      } else {
        PrefixSublist(a, b, c[1..]);
        Seqs.SublistOfTail(a, c);
      }
    }
  }

  /** `generarTweetsAutomaticos` from the answer's text onwards. `None` stands for
      every failure before a text is in hand (the request fails, or the answer
      has no choice or no content); each one is rethrown with the same message. */
  function GenerateTweets(content: Option<string>): (r: Generated)
    ensures content.None? <==> r == Thrown(FailureMessage)
    ensures content.Some? ==> r == Tweets(ExtractTweets(content.value))
    ensures r.Tweets? ==> |r.tweets| <= MaxTweets
    ensures r.Tweets? ==> forall i :: 0 <= i < |r.tweets| ==> !AllSpace(r.tweets[i]) && '\n' !in r.tweets[i]
  {
    match content
    case None => Thrown(FailureMessage)
    case Some(text) => Tweets(ExtractTweets(text))
  }
}
