/** The account edit dialog: a form with the account's name and language, a
    list of example tweets, and a map from each added tweet to the analysis the
    language-model service returned for it. The service and the database are
    outside; their answers are parameters. */
module AccountEditor {
  import opened Records
  import opened Text

  /** The opaque value the tweet analysis service returns. */
  type Analysis = string

  /** The account record the dialog is opened on. */
  datatype Account = Account(
    id: string,
    nombre: string,
    idioma: string,
    example_tweets: Option<seq<string>>,
    tweet_analyses: Option<map<string, Analysis>>)

  /** How the analysis service answers: an analysis, or an error message. */
  datatype AnalysisReply = Analysed(analysis: Analysis) | AnalysisFailed(message: string)

  /** The update sent for the account row on submit. */
  datatype AccountUpdate = AccountUpdate(fields: map<string, string>, example_tweets: seq<string>, tweet_analyses: map<string, Analysis>)

  const NoTweetsMessage := "You must have at least one example tweet"
  const UpdatedMessage := "Account updated successfully!"

  /** `list.filter((_, i) => i !== index)`. */
  function RemoveAt(list: seq<string>, index: nat): (r: seq<string>)
    requires index < |list|
    ensures r == list[..index] + list[index + 1..]
  {
    if index == 0 then list[1..] else [list[0]] + RemoveAt(list[1..], index - 1)
  }

  /** Every listed tweet has an analysis. */
  predicate Covered(list: seq<string>, analyses: map<string, Analysis>) {
    forall i :: 0 <= i < |list| ==> list[i] in analyses
  }

  /** Adding a tweet together with its analysis keeps every listed tweet analysed. */
  lemma AddKeepsCovered(list: seq<string>, analyses: map<string, Analysis>, tweet: string, a: Analysis)
    requires Covered(list, analyses)
    ensures Covered(list + [tweet], analyses[tweet := a])
  {
  }

  /** Removing the tweet at `index` and its analysis keeps every listed tweet
      analysed exactly when no other copy of that tweet is still listed. */
  lemma RemoveKeepsCoveredIff(list: seq<string>, analyses: map<string, Analysis>, index: nat)
    requires index < |list| && Covered(list, analyses)
    ensures Covered(RemoveAt(list, index), analyses - {list[index]}) <==> list[index] !in RemoveAt(list, index)
  {
    var r := RemoveAt(list, index);
    if list[index] in r {
      var j :| 0 <= j < |r| && r[j] == list[index];
      assert r[j] !in analyses - {list[index]};
    }
  }

  /** While every listed tweet is analysed, a non-empty list passes the submit check. */
  lemma CoveredListPassesSubmit(list: seq<string>, analyses: map<string, Analysis>)
    requires Covered(list, analyses) && |list| > 0
    ensures |analyses| > 0
  {
    assert list[0] in analyses;
  }

  /** The dialog's state. */
  class EditAccountForm {
    var formData: map<string, string>
    var exampleTweets: seq<string>
    var currentTweet: string
    var message: string
    var tweetAnalyses: map<string, Analysis>

    /** Opening the dialog on `account`: missing tweets or analyses start empty. */
    constructor (account: Account)
      ensures formData == map["nombre" := account.nombre, "idioma" := account.idioma]
      ensures exampleTweets == if account.example_tweets.Some? then account.example_tweets.value else []
      ensures tweetAnalyses == if account.tweet_analyses.Some? then account.tweet_analyses.value else map[]
      ensures currentTweet == "" && message == ""
    {
      formData := map["nombre" := account.nombre, "idioma" := account.idioma];
      exampleTweets := if account.example_tweets.Some? then account.example_tweets.value else [];
      currentTweet := "";
      message := "";
      tweetAnalyses := if account.tweet_analyses.Some? then account.tweet_analyses.value else map[];
    }

    /** `handleChange`: only the named form field takes the new value. */
    method HandleChange(name: string, value: string)
      modifies this`formData
      ensures formData.Keys == old(formData.Keys) + {name}
      ensures formData[name] == value
      ensures forall k :: k in old(formData) && k != name ==> formData[k] == old(formData[k])
    {
      formData := formData[name := value];
    }

    /** Typing into the tweet input. */
    method SetCurrentTweet(value: string)
      modifies this`currentTweet
      ensures currentTweet == value
    {
      currentTweet := value;
    }

    /** The Add button. A blank input changes nothing. Otherwise the trimmed
        tweet is sent for analysis (`requested`); on success it is appended to
        the list, its analysis is stored under exactly that key, and the input
        and message are cleared; on failure only the message changes. */
    method AddTweet(reply: AnalysisReply) returns (requested: Option<string>)
      modifies this`exampleTweets, this`tweetAnalyses, this`currentTweet, this`message
      ensures AllSpace(old(currentTweet)) ==>
        && requested == None
        && exampleTweets == old(exampleTweets) && tweetAnalyses == old(tweetAnalyses)
        && currentTweet == old(currentTweet) && message == old(message)
      ensures !AllSpace(old(currentTweet)) ==> requested == Some(Trim(old(currentTweet)))
      ensures !AllSpace(old(currentTweet)) && reply.Analysed? ==>
        var tweet := Trim(old(currentTweet));
        && exampleTweets == old(exampleTweets) + [tweet]
        && tweetAnalyses.Keys == old(tweetAnalyses.Keys) + {tweet}
        && tweetAnalyses[tweet] == reply.analysis
        && (forall k :: k in old(tweetAnalyses) && k != tweet ==> tweetAnalyses[k] == old(tweetAnalyses[k]))
        && currentTweet == "" && message == ""
      ensures !AllSpace(old(currentTweet)) && reply.AnalysisFailed? ==>
        && exampleTweets == old(exampleTweets) && tweetAnalyses == old(tweetAnalyses)
        && currentTweet == old(currentTweet)
        && message == "Error analyzing tweet: " + reply.message
    {
      requested := None;
      var tweet := Trim(currentTweet);
      if tweet != "" {
        requested := Some(tweet);
        match reply
        case Analysed(analysis) =>
          tweetAnalyses := tweetAnalyses[tweet := analysis];
          exampleTweets := exampleTweets + [tweet];
          currentTweet := "";
          message := "";
        case AnalysisFailed(err) =>
          message := "Error analyzing tweet: " + err;
      }
    }

    /** The Delete button of the tweet at `index`: that entry leaves the list,
        the others keep their order, and the removed tweet's analysis key is
        deleted. */
    method RemoveTweet(index: nat)
      requires index < |exampleTweets|
      modifies this`exampleTweets, this`tweetAnalyses
      ensures exampleTweets == RemoveAt(old(exampleTweets), index)
      ensures |exampleTweets| == |old(exampleTweets)| - 1
      ensures tweetAnalyses == old(tweetAnalyses) - {old(exampleTweets)[index]}
    {
      var tweetToRemove := exampleTweets[index];
      exampleTweets := RemoveAt(exampleTweets, index);
      tweetAnalyses := tweetAnalyses - {tweetToRemove};
    }

    /** `handleSubmit`. With no analysed tweet the submit is refused with an
        error message and nothing is sent; otherwise the form, the tweets and
        the analyses are sent, and the message reports how the store answered. */
    method Submit(updateError: Option<StoreError>) returns (sent: Option<AccountUpdate>)
      modifies this`message
      ensures |tweetAnalyses| == 0 ==> sent == None && message == "Error: " + NoTweetsMessage
      ensures |tweetAnalyses| > 0 ==> sent == Some(AccountUpdate(formData, exampleTweets, tweetAnalyses))
      ensures |tweetAnalyses| > 0 && updateError.None? ==> message == UpdatedMessage
      ensures |tweetAnalyses| > 0 && updateError.Some? ==> message == "Error: " + updateError.value.message
    {
      if |tweetAnalyses| == 0 {
        sent := None;
        message := "Error: " + NoTweetsMessage;
        return;
      }
      sent := Some(AccountUpdate(formData, exampleTweets, tweetAnalyses));
      if updateError.None? {
        message := UpdatedMessage;
      } else {
        message := "Error: " + updateError.value.message;
      }
    }
  }
}
