/** `findBestMatch`: scores every usable quick reply against an incoming
    message with five strategies tried in a fixed order, then keeps the
    best-scoring candidate if it clears the 0.5 confidence floor. */
module Matcher {
  import opened Common
  import opened Text
  import opened Levenshtein

  /** The fields of a quick reply the matcher reads; a null shortcut is `None`. */
  datatype QuickReply = QuickReply(id: string, shortcut: Option<string>, isActive: bool)

  datatype MatchType = Exact | Contains | Fuzzy | Keyword

  datatype Scored = Scored(score: real, matchType: MatchType)

  datatype MatchResult = MatchResult(reply: QuickReply, score: real, matchType: MatchType)

  /** `qr.isActive && qr.shortcut`: active, with a non-null, non-empty shortcut. */
  predicate Eligible(q: QuickReply)
  {
    q.isActive && q.shortcut.Some? && q.shortcut.value != ""
  }

  /** The words `extractKeywords` discards (`commonWords.has(word)`),
      grouped by length so that a lookup only compares words of the
      same length. */
  predicate IsCommonWord(w: string)
  {
    match |w|
    case 1 => w in {"a", "i"}
    case 2 => w in {"is", "at", "on", "in", "an", "or", "to", "of", "as", "by", "up", "he", "it", "we", "me", "us", "my", "am", "be", "do", "ho", "ka", "ki", "ko", "se", "ne", "ke", "ya"}
    case 3 => w in {"the", "and", "but", "for", "can", "may", "you", "she", "him", "her", "his", "its", "our", "are", "was", "has", "had", "did", "who", "why", "how", "kya", "hai", "par", "aur", "bhi", "yeh"}
    case 4 => w in {"with", "from", "into", "will", "they", "them", "your", "this", "that", "were", "been", "have", "does", "what", "when", "abhi"}
    case 5 => w in {"which", "about", "could", "would", "their", "these", "those", "being", "doing", "where"}
    case 6 => w in {"during", "should"}
    case 7 => w in {"through"}
    case _ => false
  }

  predicate IsKeyword(w: string) { |w| > 2 && !IsCommonWord(w) }

  /** The `filter` step of `extractKeywords`, keeping order and repeats. */
  function KeepKeywords(words: seq<string>): (r: seq<string>)
    ensures |r| <= |words|
    ensures forall k :: k in r <==> k in words && IsKeyword(k)
  {
    if |words| == 0 then []
    else (if IsKeyword(words[0]) then [words[0]] else []) + KeepKeywords(words[1..])
  }

  /** The filter works word by word: it distributes over concatenation,
      so the keywords come in the words' order, each repeat kept. */
  lemma {:induction false} KeepKeywordsAppend(a: seq<string>, b: seq<string>)
    ensures KeepKeywords(a + b) == KeepKeywords(a) + KeepKeywords(b)
  {
    if |a| == 0 {
      assert a + b == b;
    } else {
      assert (a + b)[1..] == a[1..] + b;
      KeepKeywordsAppend(a[1..], b);
    }
  }

  /** `extractKeywords`: lower-case, blank out punctuation, split on white
      space, drop short and common words. */
  function ExtractKeywords(text: string): seq<string>
  {
    KeepKeywords(SplitWs(BlankNonWord(Lower(text))))
  }

  /** `s.split(/\s+/).map(w => w.replace(/[^\w]/g, ''))`. */
  function Words(s: string): (ws: seq<string>)
    ensures |ws| == |SplitWs(s)|
    ensures forall w :: w in ws ==> AllWordChars(w)
    ensures forall i :: 0 <= i < |ws| ==> ws[i] == StripNonWord(SplitWs(s)[i])
  {
    var parts := SplitWs(s);
    seq(|parts|, i requires 0 <= i < |parts| => StripNonWord(parts[i]))
  }

  /** What the matcher derives from the message once: the lower-cased,
      trimmed text, its words and its keywords. */
  datatype Message = Message(norm: string, words: seq<string>, keywords: seq<string>)

  function Prepare(text: string): Message
  {
    var norm := Trim(Lower(text));
    Message(norm, Words(norm), ExtractKeywords(norm))
  }

  /** `reply.shortcut.toLowerCase().trim()`. */
  function Shortcut(q: QuickReply): string
    requires Eligible(q)
  {
    Trim(Lower(q.shortcut.value))
  }

  // ---------------------------------------------------------------
  // The five strategies
  // ---------------------------------------------------------------

  /** Strategy 2: the whole shortcut is a message word, or every shortcut
      word is. */
  predicate WordHit(msg: Message, sc: string)
  {
    sc in msg.words || forall sw :: sw in Words(sc) ==> sw in msg.words
  }

  /** One shortcut word missing from the message defeats strategy 2. */
  lemma NotWordHitBy(msg: Message, sc: string, w: string)
    requires sc !in msg.words && w in Words(sc) && w !in msg.words
    ensures !WordHit(msg, sc)
  {
  }

  /** Strategy 3: one text contains the other. */
  predicate ContainsHit(msg: Message, sc: string)
  {
    Includes(msg.norm, sc) || Includes(sc, msg.norm)
  }

  /** The message keywords that are also shortcut keywords, in message
      order and with repeats. */
  function CommonKeywords(mkw: seq<string>, skw: seq<string>): (r: seq<string>)
    ensures |r| <= |mkw|
    ensures forall k :: k in r <==> k in mkw && k in skw
  {
    if |mkw| == 0 then []
    else (if mkw[0] in skw then [mkw[0]] else []) + CommonKeywords(mkw[1..], skw)
  }

  /** The shared keywords are taken message keyword by message keyword:
      the selection distributes over concatenation, so order and repeats
      of the message's keywords are kept. */
  lemma {:induction false} CommonKeywordsAppend(a: seq<string>, b: seq<string>, skw: seq<string>)
    ensures CommonKeywords(a + b, skw) == CommonKeywords(a, skw) + CommonKeywords(b, skw)
  {
    if |a| == 0 {
      assert a + b == b;
    } else {
      assert (a + b)[1..] == a[1..] + b;
      CommonKeywordsAppend(a[1..], b, skw);
    }
  }

  /** Strategy 4: the keyword overlap ratio, when there is any overlap at all. */
  function KeywordRatio(mkw: seq<string>, skw: seq<string>): (r: Option<real>)
    ensures r.Some? ==> 0.0 < r.value <= 1.0
    ensures r.Some? <==> exists k :: k in mkw && k in skw
  {
    var common := CommonKeywords(mkw, skw);
    if |common| > 0 && |skw| > 0 then
      var m := Max(|mkw|, |skw|);
      assert common[0] in common;
      RatioBounds(|common| as real, m as real);
      Some(|common| as real / m as real)
    else
      assert |common| > 0 ==> common[0] in common;
      None
  }

  /** Best similarity of one message word to the shortcut words of length
      at least 3; 0 when there is none. */
  function BestSim(w: string, sws: seq<string>): (r: real)
    ensures 0.0 <= r <= 1.0
    ensures forall sw :: sw in sws && |sw| >= 3 ==> Similarity(w, sw) <= r
    ensures r == 0.0 || exists sw :: sw in sws && |sw| >= 3 && Similarity(w, sw) == r
  {
    if |sws| == 0 then 0.0
    else
      var init := sws[..|sws| - 1];
      var sw := sws[|sws| - 1];
      assert sws == init + [sw];
      var prev := BestSim(w, init);
      if |sw| < 3 then prev else MaxR(prev, Similarity(w, sw))
  }

  /** Strategy 5: `maxFuzzyScore`, the best similarity over all pairs of a
      message word and a shortcut word, both at least 3 long. */
  function FuzzyScore(mws: seq<string>, sws: seq<string>): (r: real)
    ensures 0.0 <= r <= 1.0
    ensures forall w, sw :: w in mws && |w| >= 3 && sw in sws && |sw| >= 3 ==> Similarity(w, sw) <= r
    ensures r == 0.0 || exists w, sw :: w in mws && |w| >= 3 && sw in sws && |sw| >= 3 && Similarity(w, sw) == r
  {
    if |mws| == 0 then 0.0
    else
      var init := mws[..|mws| - 1];
      var w := mws[|mws| - 1];
      assert mws == init + [w];
      var prev := FuzzyScore(init, sws);
      if |w| < 3 then prev else MaxR(prev, BestSim(w, sws))
  }

  lemma ContainsBounds(a: nat, b: nat)
    requires Max(a, b) > 0
    ensures 0.0 <= 0.85 * (Min(a, b) as real / Max(a, b) as real) <= 0.85
  {
    RatioBounds(Min(a, b) as real, Max(a, b) as real);
  }

  /** The per-candidate cascade of `findBestMatch`: the first strategy that
      fires decides the entry, and a candidate no strategy accepts adds
      none. */
  function Score(msg: Message, sc: string): (r: Option<Scored>)
    requires |msg.norm| > 0
    ensures r == Some(Scored(1.0, Exact)) <==> msg.norm == sc
    ensures r.Some? && r.value.matchType == Exact ==> r.value.score == 1.0 || r.value.score == 0.95
    ensures r.Some? && r.value.matchType == Contains ==> 0.0 <= r.value.score <= 0.85
    ensures r.Some? && r.value.matchType == Fuzzy ==> r.value.score == 0.65 * FuzzyScore(msg.words, Words(sc))
    ensures r.Some? && r.value.matchType == Keyword ==> 0.3 <= r.value.score <= 0.75
    ensures r.Some? && r.value.matchType == Fuzzy ==> 0.4875 <= r.value.score <= 0.65
    ensures r.Some? && r.value.score == 1.0 ==> msg.norm == sc
    ensures r.Some? && r.value.score == 0.95 ==> WordHit(msg, sc)
    ensures r.Some? && r.value.matchType != Exact ==> msg.norm != sc && !WordHit(msg, sc)
    ensures r.Some? && r.value.matchType in {Keyword, Fuzzy} ==> !ContainsHit(msg, sc)
    ensures msg.norm != sc && WordHit(msg, sc) ==> r == Some(Scored(0.95, Exact))
    ensures msg.norm != sc && !WordHit(msg, sc) && ContainsHit(msg, sc) ==>
      r == Some(Scored(0.85 * (Min(|sc|, |msg.norm|) as real / Max(|sc|, |msg.norm|) as real), Contains))
    ensures r.Some? && r.value.matchType == Keyword ==>
      var ratio := KeywordRatio(msg.keywords, ExtractKeywords(sc));
      ratio.Some? && ratio.value >= 0.4 && r.value.score == 0.75 * ratio.value
  {
    if msg.norm == sc then Some(Scored(1.0, Exact))
    else if WordHit(msg, sc) then Some(Scored(0.95, Exact))
    else if ContainsHit(msg, sc) then
      ContainsBounds(|sc|, |msg.norm|);
      Some(Scored(0.85 * (Min(|sc|, |msg.norm|) as real / Max(|sc|, |msg.norm|) as real), Contains))
    else
      var ratio := KeywordRatio(msg.keywords, ExtractKeywords(sc));
      if ratio.Some? && ratio.value >= 0.4 then Some(Scored(0.75 * ratio.value, Keyword))
      else
        var fuzzy := FuzzyScore(msg.words, Words(sc));
        if fuzzy >= 0.75 then Some(Scored(0.65 * fuzzy, Fuzzy)) else None
  }

  /** Every score the cascade produces lies in [0, 1]. */
  lemma ScoreInUnit(msg: Message, sc: string)
    requires |msg.norm| > 0
    ensures Score(msg, sc).Some? ==> 0.0 <= Score(msg, sc).value.score <= 1.0
  {
  }

  /** Once the keyword stage fires (overlap ratio at least 0.4), the
      candidate's entry is the keyword score, however low, and the fuzzy
      stage is never consulted. */
  lemma KeywordHitStopsFuzzy(msg: Message, sc: string)
    requires |msg.norm| > 0
    requires msg.norm != sc && !WordHit(msg, sc) && !ContainsHit(msg, sc)
    requires KeywordRatio(msg.keywords, ExtractKeywords(sc)).Some?
    requires KeywordRatio(msg.keywords, ExtractKeywords(sc)).value >= 0.4
    ensures Score(msg, sc).Some? && Score(msg, sc).value.matchType == Keyword
    ensures Score(msg, sc).value.score < 0.5 <==>
      KeywordRatio(msg.keywords, ExtractKeywords(sc)).value < 2.0 / 3.0
  {
  }

  /** A candidate that no earlier strategy accepts is scored by the fuzzy
      stage alone. */
  lemma FuzzyStage(msg: Message, sc: string)
    requires |msg.norm| > 0
    requires msg.norm != sc && !WordHit(msg, sc) && !ContainsHit(msg, sc)
    requires KeywordRatio(msg.keywords, ExtractKeywords(sc)).None? ||
             KeywordRatio(msg.keywords, ExtractKeywords(sc)).value < 0.4
    ensures var f := FuzzyScore(msg.words, Words(sc));
      Score(msg, sc) == if f >= 0.75 then Some(Scored(0.65 * f, Fuzzy)) else None
  {
  }

  // ---------------------------------------------------------------
  // Collecting and choosing
  // ---------------------------------------------------------------

  function MatchOf(msg: Message, q: QuickReply): Option<MatchResult>
    requires |msg.norm| > 0
  {
    if !Eligible(q) then None
    else
      var s := Score(msg, Shortcut(q));
      if s.Some? then Some(MatchResult(q, s.value.score, s.value.matchType)) else None
  }

  /** The `matches` array: one entry per eligible candidate some strategy
      accepts, in the order of the input list. */
  function Entries(msg: Message, replies: seq<QuickReply>): (es: seq<MatchResult>)
    requires |msg.norm| > 0
    ensures |es| <= |replies|
    ensures forall e :: e in es ==>
      e.reply in replies && Eligible(e.reply)
      && Score(msg, Shortcut(e.reply)) == Some(Scored(e.score, e.matchType))
    ensures forall k :: 0 <= k < |replies| && MatchOf(msg, replies[k]).Some? ==> MatchOf(msg, replies[k]).value in es
  {
    if |replies| == 0 then []
    else
      var init := replies[..|replies| - 1];
      var q := replies[|replies| - 1];
      assert replies == init + [q];
      var e := MatchOf(msg, q);
      Entries(msg, init) + (if e.Some? then [e.value] else [])
  }

  lemma {:induction false} EntriesAppend(msg: Message, a: seq<QuickReply>, b: seq<QuickReply>)
    requires |msg.norm| > 0
    ensures Entries(msg, a + b) == Entries(msg, a) + Entries(msg, b)
    decreases |b|
  {
    if |b| == 0 {
      assert a + b == a;
    } else {
      var b' := b[..|b| - 1];
      assert (a + b)[..|a + b| - 1] == a + b';
      EntriesAppend(msg, a, b');
    }
  }

  /** Position `matches[0]` takes after the stable descending sort: the
      first entry whose score no other entry exceeds. */
  function BestIndex(es: seq<MatchResult>): (i: nat)
    requires |es| > 0
    ensures i < |es|
    ensures forall j :: 0 <= j < |es| ==> es[j].score <= es[i].score
    ensures forall j :: 0 <= j < i ==> es[j].score < es[i].score
  {
    if |es| == 1 then 0
    else
      var k := 1 + BestIndex(es[1..]);
      if es[0].score >= es[k].score then 0 else k
  }

  /** `m` is the earliest entry of `es` with the top score: stable sorting
      by descending score puts it first. */
  ghost predicate FirstBest(es: seq<MatchResult>, m: MatchResult)
  {
    exists i :: 0 <= i < |es| && es[i] == m && forall j :: 0 <= j < i ==> es[j].score < es[i].score
  }

  /** `matches.sort(...)[0]` followed by the 0.5 floor. */
  function Choose(es: seq<MatchResult>): (r: Option<MatchResult>)
    ensures r.Some? ==> r.value in es && 0.5 <= r.value.score
    ensures r.Some? ==> forall e :: e in es ==> e.score <= r.value.score
    ensures r.Some? ==> FirstBest(es, r.value)
    ensures r.None? ==> forall e :: e in es ==> e.score < 0.5
  {
    if |es| == 0 then None
    else
      var i := BestIndex(es);
      if es[i].score < 0.5 then None else Some(es[i])
  }

  /** `findBestMatch`. */
  function FindBestMatch(text: string, replies: seq<QuickReply>): (r: Option<MatchResult>)
    ensures IsBlank(text) ==> r.None?
    ensures (forall q :: q in replies ==> !Eligible(q)) ==> r.None?
    ensures r.Some? ==> !IsBlank(text) && |Prepare(text).norm| > 0
    ensures r.Some? ==>
      && r.value.reply in replies && Eligible(r.value.reply)
      && 0.5 <= r.value.score <= 1.0
      && Score(Prepare(text), Shortcut(r.value.reply)) == Some(Scored(r.value.score, r.value.matchType))
    ensures r.Some? ==> forall e :: e in Entries(Prepare(text), replies) ==> e.score <= r.value.score
    ensures r.Some? ==> FirstBest(Entries(Prepare(text), replies), r.value)
    ensures r.None? && !IsBlank(text) ==>
      |Prepare(text).norm| > 0 && forall e :: e in Entries(Prepare(text), replies) ==> e.score < 0.5
  {
    if Trim(text) == "" then None
    else
      LowerKeepsBlank(text);
      var msg := Prepare(text);
      var es := Entries(msg, replies);
      var r := Choose(es);
      assert r.Some? ==> r.value in es;
      if r.Some? then
        ScoreInUnit(msg, Shortcut(r.value.reply));
        r
      else r
  }

  /** With a single reply on offer, the matcher returns it exactly when its
      shortcut scores at least 0.5, with that score and strategy. */
  lemma SingleReply(text: string, q: QuickReply)
    requires !IsBlank(text) && Eligible(q)
    ensures |Prepare(text).norm| > 0
    ensures FindBestMatch(text, [q]) ==
      match Score(Prepare(text), Shortcut(q))
      case Some(sc) => if sc.score >= 0.5 then Some(MatchResult(q, sc.score, sc.matchType)) else None
      case None => None
  {
    LowerKeepsBlank(text);
    var msg := Prepare(text);
    assert [q][..0] == [];
    var es := Entries(msg, [q]);
    assert es == Entries(msg, []) + (if MatchOf(msg, q).Some? then [MatchOf(msg, q).value] else []);
    if es != [] {
      assert BestIndex(es) == 0;
    }
  }

  /** A reply whose shortcut scores below the 0.5 floor, or not at all, is
      never the one returned, whatever else is on offer. */
  lemma BelowFloorNeverChosen(text: string, replies: seq<QuickReply>, q: QuickReply)
    requires |Prepare(text).norm| > 0 && Eligible(q)
    requires Score(Prepare(text), Shortcut(q)).None? || Score(Prepare(text), Shortcut(q)).value.score < 0.5
    ensures FindBestMatch(text, replies).None? || FindBestMatch(text, replies).value.reply != q
  {
  }

  /** Lower-casing maps white space to white space and nothing else to it. */
  lemma LowerKeepsBlank(s: string)
    ensures IsBlank(Lower(s)) <==> IsBlank(s)
  {
    LowerChars(s);
    if !IsBlank(s) {
      var i :| 0 <= i < |s| && !IsSpace(s[i]);
      assert !IsSpace(Lower(s)[i]);
    }
  }

  /** An entry scoring 1.0 that follows only lower scores is chosen. */
  lemma ChooseFirstPerfect(p: seq<MatchResult>, e: MatchResult, rest: seq<MatchResult>)
    requires forall x :: x in p ==> x.score < 1.0
    requires e.score == 1.0
    requires forall x :: x in rest ==> x.score <= 1.0
    ensures Choose(p + [e] + rest) == Some(e)
  {
    var es := p + [e] + rest;
    assert es[|p|] == e;
  }

  lemma OnlyExactIsPerfect(msg: Message, sc: string)
    requires |msg.norm| > 0 && sc != msg.norm
    ensures Score(msg, sc).Some? ==> Score(msg, sc).value.score < 1.0
  {
  }

  /** Entries of the candidates before the first exact one all score
      below 1.0. */
  lemma EntriesBelowPerfect(msg: Message, before: seq<QuickReply>)
    requires |msg.norm| > 0
    requires forall j {:trigger Shortcut(before[j])} :: 0 <= j < |before| && Eligible(before[j]) ==> Shortcut(before[j]) != msg.norm
    ensures forall x :: x in Entries(msg, before) ==> x.score < 1.0
  {
    forall x | x in Entries(msg, before) ensures x.score < 1.0 {
      var j :| 0 <= j < |before| && before[j] == x.reply;
      OnlyExactIsPerfect(msg, Shortcut(x.reply));
    }
  }

  lemma SplitAround<T>(s: seq<T>, i: nat)
    requires i < |s|
    ensures s == s[..i] + [s[i]] + s[i + 1..]
  {
  }

  lemma EntriesAround(msg: Message, replies: seq<QuickReply>, i: nat)
    requires |msg.norm| > 0
    requires i < |replies| && MatchOf(msg, replies[i]).Some?
    ensures Entries(msg, replies) ==
      Entries(msg, replies[..i]) + [MatchOf(msg, replies[i]).value] + Entries(msg, replies[i + 1..])
  {
    var before, q, after := replies[..i], replies[i], replies[i + 1..];
    SplitAround(replies, i);
    EntriesAppend(msg, before + [q], after);
    EntriesAppend(msg, before, [q]);
    assert [q][..0] == [];
  }

  lemma ChooseExact(msg: Message, replies: seq<QuickReply>, i: nat)
    requires |msg.norm| > 0
    requires i < |replies| && Eligible(replies[i]) && Shortcut(replies[i]) == msg.norm
    requires forall j {:trigger Shortcut(replies[j])} :: 0 <= j < i && Eligible(replies[j]) ==> Shortcut(replies[j]) != msg.norm
    ensures Choose(Entries(msg, replies)) == Some(MatchResult(replies[i], 1.0, Exact))
  {
    var e := MatchResult(replies[i], 1.0, Exact);
    assert MatchOf(msg, replies[i]) == Some(e);
    EntriesAround(msg, replies, i);
    var before := replies[..i];
    assert forall j :: 0 <= j < |before| ==> before[j] == replies[j];
    EntriesBelowPerfect(msg, before);
    var rest := Entries(msg, replies[i + 1..]);
    forall x | x in rest ensures x.score <= 1.0 {
      ScoreInUnit(msg, Shortcut(x.reply));
    }
    ChooseFirstPerfect(Entries(msg, before), e, rest);
  }

  /** The first candidate whose normalised shortcut equals the normalised
      message wins with score 1.0, wherever it sits in the list. */
  lemma ExactMatchWins(text: string, replies: seq<QuickReply>, i: nat)
    requires !IsBlank(text)
    requires i < |replies| && Eligible(replies[i])
    requires Shortcut(replies[i]) == Prepare(text).norm
    requires forall j {:trigger Shortcut(replies[j])} :: 0 <= j < i && Eligible(replies[j]) ==> Shortcut(replies[j]) != Prepare(text).norm
    ensures FindBestMatch(text, replies) == Some(MatchResult(replies[i], 1.0, Exact))
  {
    LowerKeepsBlank(text);
    ChooseExact(Prepare(text), replies, i);
  }
}
