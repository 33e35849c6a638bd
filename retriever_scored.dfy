/**
 * `get_context` of retriever.py: the question's words minus a stop-word list
 * become keywords; every knowledge line of at least five characters is scored
 * by how many keywords it contains; the five best lines, ties kept in file
 * order, are returned stripped and joined by newlines.  The knowledge text is
 * a parameter here.
 */
module ScoredRetriever {
  import opened Strings
  import opened Sorting

  /** Membership in `STOPWORDS`. */
  predicate IsStopword(w: string) {
    w in {
      "hi", "hello", "hey", "please", "thanks", "thank", "you", "is", "the",
      "a", "an", "to", "of", "and", "are", "be", "on", "me", "do", "how", "i",
      "can", "tell", "does", "it", "about", "open", "what", "time", "when"
    }
  }

  const WelcomeText := "Welcome to Fairmont. Please ask a specific question and I\U{2019}ll assist you."
  const NoMatchText := "I couldn't find an exact match, but I\U{2019}d be happy to help with more details."

  /** How many lines at most the reply holds. */
  const TopCount := 5

  /** Shortest lower-cased, stripped line that is scored at all. */
  const MinLineLength := 5

  /** The words that are not stop words, in order, duplicates kept. */
  function NotStopwords(words: seq<string>): seq<string> {
    if words == [] then []
    else (if IsStopword(words[0]) then [] else [words[0]]) + NotStopwords(words[1..])
  }

  /** `[word for word in user_input.lower().split() if word not in STOPWORDS]`. */
  function Keywords(input: string): seq<string> {
    NotStopwords(Words(Lower(input)))
  }

  /** `sum(1 for kw in keywords if kw in text)`. */
  function Hits(text: string, keywords: seq<string>): nat {
    if keywords == [] then 0
    else (if Contains(text, keywords[0]) then 1 else 0) + Hits(text, keywords[1..])
  }

  /** A line's score: keyword hits in its lower-cased, stripped form. */
  function Score(line: string, keywords: seq<string>): nat {
    Hits(Strip(Lower(line)), keywords)
  }

  /** The line is long enough to be scored and scores above zero. */
  predicate Kept(line: string, keywords: seq<string>) {
    |Strip(Lower(line))| >= MinLineLength && Score(line, keywords) > 0
  }

  /** One `(match_score, line.strip())` pair. */
  datatype Match = Match(score: nat, text: string)

  function ScoreOf(m: Match): int {
    m.score
  }

  /** What one line contributes to `matched_lines`. */
  function MatchOf(line: string, keywords: seq<string>): seq<Match> {
    if Kept(line, keywords) then [Match(Score(line, keywords), Strip(line))] else []
  }

  /** `matched_lines` after the loop. */
  function Matched(lines: seq<string>, keywords: seq<string>): seq<Match>
    decreases |lines|
  {
    if lines == [] then []
    else Matched(lines[..|lines| - 1], keywords) + MatchOf(lines[|lines| - 1], keywords)
  }

  /** `matched_lines` after `sort(reverse=True, key=score)`. */
  function Ranked(lines: seq<string>, keywords: seq<string>): seq<Match> {
    SortDesc(Matched(lines, keywords), ScoreOf)
  }

  function Texts(ms: seq<Match>): (ts: seq<string>)
    ensures |ts| == |ms|
    ensures forall i :: 0 <= i < |ms| ==> ts[i] == ms[i].text
  {
    if ms == [] then [] else [ms[0].text] + Texts(ms[1..])
  }

  function Take<T>(s: seq<T>, n: nat): seq<T> {
    if |s| <= n then s else s[..n]
  }

  /** `top_matches`: the texts of the first five ranked matches. */
  function Top(lines: seq<string>, keywords: seq<string>): seq<string> {
    Texts(Take(Ranked(lines, keywords), TopCount))
  }

  /** The reply of `get_context(input)` over the knowledge text `knowledge`. */
  function Context(knowledge: string, input: string): string {
    var keywords := Keywords(input);
    if keywords == [] then WelcomeText
    else
      var top := Top(Split(knowledge, '\n'), keywords);
      if top == [] then NoMatchText else Join(top, "\n")
  }

  /** The body of the matching loop for one line: the pair it appends, if any. */
  method MatchLine(line: string, keywords: seq<string>) returns (found: seq<Match>)
    ensures found == MatchOf(line, keywords)
  {
    found := [];
    var lineLower := Strip(Lower(line));
    if |lineLower| < MinLineLength {
      return;
    }
    var score := Hits(lineLower, keywords);
    if score > 0 {
      found := [Match(score, Strip(line))];
    }
  }

  /** The matching loop, appending a scored pair for every kept line. */
  method MatchLines(lines: seq<string>, keywords: seq<string>) returns (matched: seq<Match>)
    ensures matched == Matched(lines, keywords)
  {
    matched := [];
    var i := 0;
    while i < |lines|
      invariant 0 <= i <= |lines|
      invariant matched == Matched(lines[..i], keywords)
    {
      var found := MatchLine(lines[i], keywords);
      MatchedStep(lines, i, keywords);
      matched := matched + found;
      i := i + 1;
    }
    assert lines[..i] == lines;
  }

  lemma MatchedStep(lines: seq<string>, i: nat, keywords: seq<string>)
    requires i < |lines|
    ensures Matched(lines[..i + 1], keywords) == Matched(lines[..i], keywords) + MatchOf(lines[i], keywords)
  {
    assert lines[..i + 1][..i] == lines[..i];
  }

  method GetContext(knowledge: string, input: string) returns (context: string)
    ensures context == Context(knowledge, input)
  {
    var lines := Split(knowledge, '\n');
    var keywords := Keywords(input);
    if keywords == [] {
      return WelcomeText;
    }
    var matched := MatchLines(lines, keywords);
    matched := SortDesc(matched, ScoreOf);
    var top := Texts(Take(matched, TopCount));
    if top == [] {
      return NoMatchText;
    }
    context := Join(top, "\n");
  }

  // ---------------------------------------------------------------- properties

  /** A keyword is a word of the lower-cased question that is not a stop word. */
  lemma {:induction false} NotStopwordsMembers(words: seq<string>)
    ensures forall w :: w in NotStopwords(words) <==> w in words && !IsStopword(w)
  {
    if words != [] {
      NotStopwordsMembers(words[1..]);
      assert words == [words[0]] + words[1..];
    }
  }

  /** There are no keywords exactly when every word of the question is a stop word. */
  lemma KeywordsEmptyIff(input: string)
    ensures Keywords(input) == [] <==> forall w :: w in Words(Lower(input)) ==> IsStopword(w)
  {
    NotStopwordsMembers(Words(Lower(input)));
    if Keywords(input) != [] {
      assert Keywords(input)[0] in Keywords(input);
    }
  }

  /** A question made only of stop words gets the welcome sentence, whatever the knowledge. */
  lemma WelcomeOnlyStopwords(knowledge: string, input: string)
    requires forall w :: w in Words(Lower(input)) ==> IsStopword(w)
    ensures Context(knowledge, input) == WelcomeText
  {
    KeywordsEmptyIff(input);
  }

  /** A text scores at most one point per keyword, and above zero exactly when it contains one. */
  lemma {:induction false} HitsPositive(text: string, keywords: seq<string>)
    ensures Hits(text, keywords) <= |keywords|
    ensures Hits(text, keywords) > 0 <==> exists t :: 0 <= t < |keywords| && Contains(text, keywords[t])
  {
    if keywords != [] {
      HitsPositive(text, keywords[1..]);
      if Contains(text, keywords[0]) {
        assert Contains(text, keywords[0]);
      } else if exists t :: 0 <= t < |keywords| && Contains(text, keywords[t]) {
        var t :| 0 <= t < |keywords| && Contains(text, keywords[t]);
        assert keywords[1..][t - 1] == keywords[t];
      }
    }
  }

  /** Duplicated keywords count twice: the score is additive over the keyword list. */
  lemma {:induction false} HitsAppend(text: string, a: seq<string>, b: seq<string>)
    ensures Hits(text, a + b) == Hits(text, a) + Hits(text, b)
  {
    if a == [] {
      assert a + b == b;
    } else {
      assert (a + b)[1..] == a[1..] + b;
      HitsAppend(text, a[1..], b);
    }
  }

  /** A match is made from exactly one kept line: its score and its stripped text. */
  lemma {:induction false} MatchedMembers(lines: seq<string>, keywords: seq<string>)
    ensures |Matched(lines, keywords)| <= |lines|
    ensures forall m :: m in Matched(lines, keywords) <==>
      exists line :: line in lines && Kept(line, keywords) && m == Match(Score(line, keywords), Strip(line))
    decreases |lines|
  {
    if lines != [] {
      var init := lines[..|lines| - 1];
      MatchedMembers(init, keywords);
      assert lines == init + [lines[|lines| - 1]];
    }
  }

  /** Ranking reorders the matches, highest score first, equal scores in file order. */
  lemma RankedOrder(lines: seq<string>, keywords: seq<string>)
    ensures multiset(Ranked(lines, keywords)) == multiset(Matched(lines, keywords))
    ensures forall i, j :: 0 <= i < j < |Ranked(lines, keywords)| ==>
      Ranked(lines, keywords)[i].score >= Ranked(lines, keywords)[j].score
    ensures forall k :: WithKey(Ranked(lines, keywords), ScoreOf, k) == WithKey(Matched(lines, keywords), ScoreOf, k)
  {
    SortDescSorted(Matched(lines, keywords), ScoreOf);
    forall k {
      SortDescStable(Matched(lines, keywords), ScoreOf, k);
    }
  }

  /** Every ranked match is a match, and conversely. */
  lemma RankedMembers(lines: seq<string>, keywords: seq<string>)
    ensures |Ranked(lines, keywords)| == |Matched(lines, keywords)|
    ensures forall m :: m in Ranked(lines, keywords) <==> m in Matched(lines, keywords)
  {
    SortDescMembers(Matched(lines, keywords), ScoreOf);
  }

  /** The stripped text of a kept line is at least five long and contains a keyword once lower-cased. */
  lemma KeptText(line: string, keywords: seq<string>)
    requires Kept(line, keywords)
    ensures |Strip(line)| >= MinLineLength
    ensures exists t :: 0 <= t < |keywords| && Contains(Lower(Strip(line)), keywords[t])
  {
    StripLower(line);
    HitsPositive(Strip(Lower(line)), keywords);
  }

  /** The `i`-th reply line is the stripped text of a kept knowledge line. */
  lemma TopLine(lines: seq<string>, keywords: seq<string>, i: nat)
    requires i < |Top(lines, keywords)|
    ensures exists line :: line in lines && Kept(line, keywords) && Top(lines, keywords)[i] == Strip(line)
  {
    var ranked := Ranked(lines, keywords);
    RankedMembers(lines, keywords);
    MatchedMembers(lines, keywords);
    var m := ranked[i];
    assert Top(lines, keywords)[i] == m.text;
    assert m in Matched(lines, keywords);
  }

  /**
   * The reply lines: at most five, each the stripped text of a kept knowledge
   * line, so at least five characters long and containing a keyword once
   * lower-cased.
   */
  lemma TopLines(lines: seq<string>, keywords: seq<string>)
    ensures |Top(lines, keywords)| <= TopCount
    ensures forall i :: 0 <= i < |Top(lines, keywords)| ==>
      |Top(lines, keywords)[i]| >= MinLineLength
      && exists t :: 0 <= t < |keywords| && Contains(Lower(Top(lines, keywords)[i]), keywords[t])
  {
    var top := Top(lines, keywords);
    forall i | 0 <= i < |top|
      ensures |top[i]| >= MinLineLength
      ensures exists t :: 0 <= t < |keywords| && Contains(Lower(top[i]), keywords[t])
    {
      TopLine(lines, keywords, i);
      var line :| line in lines && Kept(line, keywords) && top[i] == Strip(line);
      KeptText(line, keywords);
    }
  }

  /**
   * Only the lowest-ranked matches are cut: every returned match scores at
   * least as much as every match left out.
   */
  lemma TopDominates(lines: seq<string>, keywords: seq<string>)
    ensures var ranked := Ranked(lines, keywords);
      forall i, j :: 0 <= i < |Take(ranked, TopCount)| <= j < |ranked| ==> ranked[i].score >= ranked[j].score
  {
    RankedOrder(lines, keywords);
  }

  /** No line is returned exactly when no knowledge line is kept. */
  lemma TopEmptyIff(lines: seq<string>, keywords: seq<string>)
    ensures Top(lines, keywords) == [] <==> forall line :: line in lines ==> !Kept(line, keywords)
  {
    MatchedMembers(lines, keywords);
    RankedMembers(lines, keywords);
    var matched := Matched(lines, keywords);
    forall line | line in lines && Kept(line, keywords)
      ensures Match(Score(line, keywords), Strip(line)) in matched
    {
    }
    if matched != [] {
      assert matched[0] in matched;
    }
  }

  /** With keywords but no kept line, the reply is the no-match sentence. */
  lemma NoMatchWhenNothingKept(knowledge: string, input: string)
    requires Keywords(input) != []
    requires forall line :: line in Split(knowledge, '\n') ==> !Kept(line, Keywords(input))
    ensures Context(knowledge, input) == NoMatchText
  {
    TopEmptyIff(Split(knowledge, '\n'), Keywords(input));
  }

  /** When lines are returned, the reply splits at its newlines back into exactly those lines. */
  lemma ContextLines(knowledge: string, input: string)
    requires Keywords(input) != []
    requires Top(Split(knowledge, '\n'), Keywords(input)) != []
    ensures Split(Context(knowledge, input), '\n') == Top(Split(knowledge, '\n'), Keywords(input))
  {
    var lines := Split(knowledge, '\n');
    var top := Top(lines, Keywords(input));
    forall i | 0 <= i < |top| ensures '\n' !in top[i] {
      TopLine(lines, Keywords(input), i);
      var line :| line in lines && Kept(line, Keywords(input)) && top[i] == Strip(line);
      StripKeepsNoNewline(line);
    }
    SplitJoin(top, '\n');
  }

  /** A line from the split contains no newline, and neither does its stripped form. */
  lemma StripKeepsNoNewline(line: string)
    requires '\n' !in line
    ensures '\n' !in Strip(line)
  {
    StripShape(line);
    var k :| 0 <= k && OccursAt(line, Strip(line), k);
    assert forall j :: 0 <= j < |Strip(line)| ==> Strip(line)[j] == line[k + j];
  }
}
