/**
 * `get_context` of Backend/retriever.py: the knowledge lines that contain any
 * lower-cased word of the question, in file order, joined by newlines, or a
 * fixed fallback sentence.  The knowledge text, which the source reads from
 * `knowledge.txt` on every call, is a parameter here.
 */
module KeywordRetriever {
  import opened Strings

  const FallbackText := "General hotel information may help you."

  /** `user_input.lower().split()`. */
  function Keywords(input: string): seq<string> {
    Words(Lower(input))
  }

  /** Some keyword is a substring of the lower-cased line. */
  predicate Relevant(line: string, keywords: seq<string>) {
    exists t :: 0 <= t < |keywords| && Contains(Lower(line), keywords[t])
  }

  /** The relevant lines, in order: what the loop appends to `relevant_lines`. */
  function RelevantLines(lines: seq<string>, keywords: seq<string>): (r: seq<string>)
    decreases |lines|
  {
    if lines == [] then []
    else
      var last := lines[|lines| - 1];
      RelevantLines(lines[..|lines| - 1], keywords) + (if Relevant(last, keywords) then [last] else [])
  }

  /** The reply of `get_context(input)` over the knowledge text `knowledge`. */
  function Context(knowledge: string, input: string): string {
    var r := RelevantLines(Split(knowledge, '\n'), Keywords(input));
    if r == [] then FallbackText else Join(r, "\n")
  }

  /**
   * The inner loop of the source: the keywords are tried in order and the
   * first one found in the lower-cased line ends the search.
   */
  method MentionsKeyword(line: string, keywords: seq<string>) returns (found: bool)
    ensures found == Relevant(line, keywords)
  {
    var lower := Lower(line);
    var j := 0;
    while j < |keywords|
      invariant 0 <= j <= |keywords|
      invariant forall t :: 0 <= t < j ==> !Contains(lower, keywords[t])
    {
      if Contains(lower, keywords[j]) {
        return true;
      }
      j := j + 1;
    }
    return false;
  }

  /** The outer loop of the source: every line that mentions a keyword is appended. */
  method GetContext(knowledge: string, input: string) returns (context: string)
    ensures context == Context(knowledge, input)
  {
    var lines := Split(knowledge, '\n');
    var relevant: seq<string> := [];
    var keywords := Keywords(input);
    var i := 0;
    while i < |lines|
      invariant 0 <= i <= |lines|
      invariant relevant == RelevantLines(lines[..i], keywords)
    {
      var found := MentionsKeyword(lines[i], keywords);
      if found {
        relevant := relevant + [lines[i]];
      }
      NextLine(lines, i, keywords);
      i := i + 1;
    }
    assert lines[..i] == lines;
    if relevant == [] {
      return FallbackText;
    }
    context := Join(relevant, "\n");
  }

  lemma NextLine(lines: seq<string>, i: nat, keywords: seq<string>)
    requires i < |lines|
    ensures RelevantLines(lines[..i + 1], keywords)
         == RelevantLines(lines[..i], keywords) + (if Relevant(lines[i], keywords) then [lines[i]] else [])
  {
    assert lines[..i + 1][..i] == lines[..i];
  }

  // ---------------------------------------------------------------- properties

  /** A line is kept exactly when it is one of the lines and some keyword occurs in it. */
  lemma {:induction false} RelevantLinesMembers(lines: seq<string>, keywords: seq<string>)
    ensures forall x :: x in RelevantLines(lines, keywords) <==> x in lines && Relevant(x, keywords)
    decreases |lines|
  {
    if lines != [] {
      RelevantLinesMembers(lines[..|lines| - 1], keywords);
      assert lines == lines[..|lines| - 1] + [lines[|lines| - 1]];
    }
  }

  /**
   * The result is a subsequence of the lines: each kept line is an unmodified
   * line of the knowledge, in file order, and no line is kept twice.
   */
  lemma {:induction false} RelevantLinesSubsequence(lines: seq<string>, keywords: seq<string>)
    returns (index: seq<nat>)
    ensures var r := RelevantLines(lines, keywords);
      && |index| == |r|
      && (forall t :: 0 <= t < |r| ==> index[t] < |lines| && r[t] == lines[index[t]] && Relevant(r[t], keywords))
      && (forall s, t :: 0 <= s < t < |r| ==> index[s] < index[t])
    decreases |lines|
  {
    if lines == [] {
      index := [];
    } else {
      var n := |lines| - 1;
      var prefix := lines[..n];
      var front := RelevantLinesSubsequence(prefix, keywords);
      if Relevant(lines[n], keywords) {
        index := front + [n];
      } else {
        index := front;
      }
    }
  }

  /** No line is kept exactly when no keyword occurs in any line. */
  lemma RelevantLinesEmptyIff(lines: seq<string>, keywords: seq<string>)
    ensures RelevantLines(lines, keywords) == [] <==> forall i :: 0 <= i < |lines| ==> !Relevant(lines[i], keywords)
  {
    RelevantLinesMembers(lines, keywords);
    if RelevantLines(lines, keywords) != [] {
      assert RelevantLines(lines, keywords)[0] in RelevantLines(lines, keywords);
    }
  }

  /**
   * Without a relevant line the reply is the fallback sentence; otherwise the
   * reply splits at its newlines back into exactly the relevant lines.
   */
  lemma ContextLines(knowledge: string, input: string)
    ensures var r := RelevantLines(Split(knowledge, '\n'), Keywords(input));
      && (r == [] ==> Context(knowledge, input) == FallbackText)
      && (r != [] ==> Split(Context(knowledge, input), '\n') == r)
  {
    var lines := Split(knowledge, '\n');
    var r := RelevantLines(lines, Keywords(input));
    if r != [] {
      RelevantLinesMembers(lines, Keywords(input));
      assert forall i :: 0 <= i < |r| ==> r[i] in lines;
      SplitJoin(r, '\n');
    }
  }

  /** A question with no words (empty or all whitespace) gets the fallback sentence. */
  lemma BlankInputFallback(knowledge: string, input: string)
    requires forall i :: 0 <= i < |input| ==> IsSpace(input[i])
    ensures Context(knowledge, input) == FallbackText
  {
    WordsEmptyIff(Lower(input));
    RelevantLinesEmptyIff(Split(knowledge, '\n'), Keywords(input));
  }

  /** An empty knowledge text gets the fallback sentence, whatever the question. */
  lemma EmptyKnowledgeFallback(input: string)
    ensures Context("", input) == FallbackText
  {
    var keywords := Keywords(input);
    forall t | 0 <= t < |keywords| ensures !Contains(Lower(""), keywords[t]) {
      assert keywords[t] in keywords;
      AbsentChar(Lower(""), keywords[t], 0);
    }
    assert Split("", '\n') == [""];
    RelevantLinesEmptyIff([""], keywords);
  }
}
