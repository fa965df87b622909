/** The sample quick replies and conversations of `test-auto-reply.js`,
    worked through the model.  Two of that file's expectations do not
    hold of the service as written; the lemmas below state what the
    service does. */
module Scenarios {
  import opened Common
  import opened Text
  import opened Levenshtein
  import opened Matcher
  import opened Ledger
  import opened AutoReply

  const PaymentReply := QuickReply("1", Some("payment"), true)
  const PricingReply := QuickReply("2", Some("pricing"), true)
  const AwayReply := QuickReply("3", Some("away"), true)
  const GreetingReply := QuickReply("4", Some("hello greeting"), true)

  const Sample: seq<QuickReply> := [PaymentReply, PricingReply, AwayReply, GreetingReply]

  /** A text with no capital letter and no white space at either end is
      its own normal form. */
  lemma NormalisedText(s: string)
    requires forall i :: 0 <= i < |s| ==> !('A' <= s[i] <= 'Z')
    requires |s| > 0 && !IsSpace(s[0]) && !IsSpace(s[|s| - 1])
    ensures Lower(s) == s && Trim(s) == s && Trim(Lower(s)) == s
  {
    LowerChars(s);
    assert SkipSpace(s) == s;
  }

  /** "payment" picks the payment reply with the exact score. */
  lemma PaymentIsExact()
    ensures FindBestMatch("payment", Sample) == Some(MatchResult(PaymentReply, 1.0, Exact))
  {
    NormalisedText("payment");
    assert !IsSpace("payment"[0]);
    ExactMatchWins("payment", Sample, 0);
  }

  /** A lower-case word of letters is its own word list and keyword list. */
  lemma OneWord(w: string)
    requires |w| > 2 && !IsCommonWord(w)
    requires forall i :: 0 <= i < |w| ==> 'a' <= w[i] <= 'z'
    ensures Words(w) == [w] && ExtractKeywords(w) == [w]
  {
    assert NoSpace(w);
    OneWordWords(w);
    OneWordKeywords(w);
  }

  lemma OneWordWords(w: string)
    requires NoSpace(w) && AllWordChars(w)
    ensures Words(w) == [w]
  {
    SplitWsOfWord(w);
    StripNonWordOfWord(w);
  }

  lemma OneWordKeywords(w: string)
    requires |w| > 2 && !IsCommonWord(w)
    requires forall i :: 0 <= i < |w| ==> 'a' <= w[i] <= 'z'
    ensures ExtractKeywords(w) == [w]
  {
    assert NoSpace(w);
    LowerChars(w);
    assert Lower(w) == w;
    assert BlankNonWord(w) == w;
    SplitWsOfWord(w);
    assert [w][1..] == [];
  }

  // ---------------------------------------------------------------
  // "hello bhai" against "hello greeting" (test line 51)
  // ---------------------------------------------------------------

  const HelloMessage := Message("hello bhai", ["hello", "bhai"], ["hello", "bhai"])

  /** Two lower-case words joined by a space: their word and keyword lists. */
  lemma TwoWords(a: string, b: string)
    requires |a| > 2 && !IsCommonWord(a) && forall i :: 0 <= i < |a| ==> 'a' <= a[i] <= 'z'
    requires |b| > 2 && !IsCommonWord(b) && forall i :: 0 <= i < |b| ==> 'a' <= b[i] <= 'z'
    ensures Words(a + " " + b) == [a, b] && ExtractKeywords(a + " " + b) == [a, b]
  {
    var s := a + " " + b;
    assert NoSpace(a) && NoSpace(b);
    SplitWsTwo(a, b);
    StripNonWordOfWord(a);
    StripNonWordOfWord(b);
    var ws := Words(s);
    assert |ws| == 2 && ws[0] == a && ws[1] == b;
    LowerChars(s);
    assert Lower(s) == s;
    assert BlankNonWord(s) == s;
    assert [a, b][1..] == [b] && [b][1..] == [];
    assert KeepKeywords([b]) == [b];
  }

  lemma HelloNorm()
    ensures Trim(Lower("hello bhai")) == "hello bhai"
  {
    NormalisedText("hello bhai");
  }

  lemma HelloWordLists()
    ensures Words("hello bhai") == ["hello", "bhai"]
    ensures ExtractKeywords("hello bhai") == ["hello", "bhai"]
  {
    TwoWords("hello", "bhai");
    assert "hello" + " " + "bhai" == "hello bhai";
  }

  lemma HelloPrepared()
    ensures Prepare("hello bhai") == HelloMessage
  {
    HelloNorm();
    HelloWordLists();
  }

  lemma GreetingShortcut()
    ensures Shortcut(GreetingReply) == "hello greeting"
  {
    NormalisedText("hello greeting");
  }

  lemma GreetingWordList()
    ensures Words("hello greeting") == ["hello", "greeting"]
  {
    GreetingWords();
  }

  lemma GreetingWords()
    ensures Words("hello greeting") == ["hello", "greeting"]
    ensures ExtractKeywords("hello greeting") == ["hello", "greeting"]
  {
    TwoWords("hello", "greeting");
    assert "hello" + " " + "greeting" == "hello greeting";
  }

  /** The keyword stage fires at ratio 1/2 and so scores 0.375. */
  lemma HelloKeywordRatio()
    ensures KeywordRatio(["hello", "bhai"], ["hello", "greeting"]) == Some(0.5)
  {
    var common := CommonKeywords(["hello", "bhai"], ["hello", "greeting"]);
    assert ["hello", "bhai"][1..] == ["bhai"];
    assert common == ["hello"];
  }

  lemma HelloNotContained()
    ensures !Includes("hello bhai", "hello greeting") && !Includes("hello greeting", "hello bhai")
  {
    GreetingNotInHello();
    HelloNotInGreeting();
  }

  lemma GreetingNotInHello()
    ensures !Includes("hello bhai", "hello greeting")
  {
    NotIncludedByChar("hello bhai", "hello greeting", 6);
  }

  lemma HelloNotInGreeting()
    ensures !Includes("hello greeting", "hello bhai")
  {
    NotIncludedByChar("hello greeting", "hello bhai", 8);
  }

  lemma HelloScore()
    ensures Score(HelloMessage, "hello greeting") == Some(Scored(0.375, Keyword))
  {
    GreetingWords();
    HelloKeywordRatio();
    HelloNotContained();
    HelloNotWord();
  }

  lemma HelloNotWord()
    ensures !WordHit(HelloMessage, "hello greeting")
  {
    GreetingWordList();
    NotInHelloWords("greeting");
    NotInHelloWords("hello greeting");
    NotWordHitVia(HelloMessage, "hello greeting", ["hello", "greeting"], "greeting");
  }

  /** A text longer than five characters is not a word of the message. */
  lemma NotInHelloWords(w: string)
    requires |w| > 5
    ensures w !in HelloMessage.words
  {
    assert |HelloMessage.words[0]| == 5 && |HelloMessage.words[1]| == 4;
  }

  lemma NotWordHitVia(msg: Message, sc: string, ws: seq<string>, w: string)
    requires Words(sc) == ws && w in ws && w !in msg.words && sc !in msg.words
    ensures !WordHit(msg, sc)
  {
    NotWordHitBy(msg, sc, w);
  }

  /** The test file expects "hello bhai" to reach the "hello greeting"
      reply, but its keyword entry scores 0.375, the fuzzy stage is never
      tried for it, and the floor rejects it: whatever replies are on
      offer, the matcher does not return that one. */
  lemma HelloNeverGreets(replies: seq<QuickReply>)
    ensures FindBestMatch("hello bhai", replies).None? ||
            FindBestMatch("hello bhai", replies).value.reply != GreetingReply
  {
    HelloBelowFloor();
    BelowFloorNeverChosen("hello bhai", replies, GreetingReply);
  }

  lemma HelloBelowFloor()
    ensures |Prepare("hello bhai").norm| > 0
    ensures Score(Prepare("hello bhai"), Shortcut(GreetingReply)) == Some(Scored(0.375, Keyword))
  {
    HelloPrepared();
    GreetingShortcut();
    HelloScore();
  }

  // ---------------------------------------------------------------
  // The rate-limiting conversation (test lines 115-137)
  // ---------------------------------------------------------------

  function TestContext(text: string, t: int): Context
  {
    Context("test-user", "test-contact", "test-conv", text, t)
  }

  /** Three calls with the same text from one pair, each seeing the ledger
      the previous one left, with the clock equal to the message timestamp. */
  function Conversation(replies: seq<QuickReply>, text: string, t0: int, t1: int, t2: int): seq<Option<Reply>>
  {
    var o1 := ProcessAutoReply(map[], TestContext(text, t0), replies, t0);
    var o2 := ProcessAutoReply(o1.store, TestContext(text, t1), replies, t1);
    var o3 := ProcessAutoReply(o2.store, TestContext(text, t2), replies, t2);
    [o1.result, o2.result, o3.result]
  }

  /** A text that matches is answered the first time; any repeat inside the
      duplicate window is not, whether or not it clears the rate limit,
      because the ledger still holds the first answer. */
  lemma {:induction false} RepeatsSuppressed(replies: seq<QuickReply>, text: string, t0: int, t1: int, t2: int, m: MatchResult)
    requires FindBestMatch(text, replies) == Some(m)
    requires t0 <= t1 < t0 + DuplicateWindowMs && t0 <= t2 < t0 + DuplicateWindowMs
    ensures Conversation(replies, text, t0, t1, t2) == [Some(Reply(m.reply, m.matchType, m.score)), None, None]
  {
    var c0, c1, c2 := TestContext(text, t0), TestContext(text, t1), TestContext(text, t2);
    assert !ShouldSkip(map[], c0, m.reply.id, t0).skip;
    var o1 := ProcessAutoReply(map[], c0, replies, t0);
    assert o1.store[KeyOf(c0)] == Entry(t0, m.reply.id);
    SameReplySuppressed(o1.store, c1, replies, t1, m);
    var o2 := ProcessAutoReply(o1.store, c1, replies, t1);
    SameReplySuppressed(o2.store, c2, replies, t2, m);
  }
}
