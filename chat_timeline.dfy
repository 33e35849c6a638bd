/**
 * The chat screen's timeline: the `messages` array of entries and the
 * functional updates the screen applies to it (append, `filter` on flags,
 * replacement of the entry that `findIndex(m => m.isTyping)` locates).
 */
module ChatTimeline {

  datatype Sender = User | Bot

  /** One chat bubble; a flag missing from the JavaScript object is `false` here. */
  datatype Entry = Entry(from: Sender, text: string, isLoading: bool, isTyping: bool, isError: bool)

  /** The bubble a send appends for what the user typed. */
  function UserEntry(text: string): Entry {
    Entry(User, text, false, false, false)
  }

  /** The "Thinking..." placeholder shown while the backend is awaited. */
  function LoadingEntry(): Entry {
    Entry(Bot, "Thinking...", true, false, false)
  }

  /** The empty bubble the reveal ticker writes into. */
  function TypingEntry(): Entry {
    Entry(Bot, "", false, true, false)
  }

  /** The object `{from: 'bot', text, isTyping: false}` written when a reveal completes. */
  function FinalEntry(text: string): Entry {
    Entry(Bot, text, false, false, false)
  }

  function ErrorEntry(text: string): Entry {
    Entry(Bot, text, false, false, true)
  }

  datatype Flag = Loading | Typing

  predicate Has(e: Entry, f: Flag) {
    match f
    case Loading => e.isLoading
    case Typing => e.isTyping
  }

  /** How many entries carry the flag. */
  function Count(ms: seq<Entry>, f: Flag): (n: nat)
    ensures n <= |ms|
  {
    if ms == [] then 0 else (if Has(ms[0], f) then 1 else 0) + Count(ms[1..], f)
  }

  /** No entry carries the flag exactly when the count is zero. */
  lemma {:induction false} CountZero(ms: seq<Entry>, f: Flag)
    ensures Count(ms, f) == 0 <==> forall i :: 0 <= i < |ms| ==> !Has(ms[i], f)
  {
    if ms != [] {
      CountZero(ms[1..], f);
      assert forall i :: 1 <= i < |ms| ==> ms[i] == ms[1..][i - 1];
    }
  }

  lemma {:induction false} CountAppend(a: seq<Entry>, b: seq<Entry>, f: Flag)
    ensures Count(a + b, f) == Count(a, f) + Count(b, f)
  {
    if a == [] {
      assert a + b == b;
    } else {
      assert (a + b)[1..] == a[1..] + b;
      CountAppend(a[1..], b, f);
    }
  }

  lemma {:induction false} CountUpdate(ms: seq<Entry>, i: nat, e: Entry, f: Flag)
    requires i < |ms|
    ensures Count(ms[i := e], f)
         == Count(ms, f) - (if Has(ms[i], f) then 1 else 0) + (if Has(e, f) then 1 else 0)
  {
    if i > 0 {
      assert ms[i := e][1..] == ms[1..][i - 1 := e];
      CountUpdate(ms[1..], i - 1, e, f);
    }
  }

  /** `ms.findIndex(m => m.isTyping)`: the first typing entry, or -1 when there is none. */
  function FindTyping(ms: seq<Entry>): (i: int)
    ensures -1 <= i < |ms|
    ensures i == -1 ==> forall j :: 0 <= j < |ms| ==> !ms[j].isTyping
    ensures 0 <= i ==> ms[i].isTyping && forall j :: 0 <= j < i ==> !ms[j].isTyping
  {
    if ms == [] then -1
    else if ms[0].isTyping then 0
    else
      var j := FindTyping(ms[1..]);
      if j == -1 then -1 else j + 1
  }

  /** A reveal tick: the first typing entry gets `text`, keeping its other fields. */
  function ShowTyping(ms: seq<Entry>, text: string): seq<Entry> {
    var i := FindTyping(ms);
    if i == -1 then ms else ms[i := ms[i].(text := text)]
  }

  /** The final tick and the safety timer: the first typing entry becomes a plain bot entry. */
  function FinishTyping(ms: seq<Entry>, text: string): seq<Entry> {
    var i := FindTyping(ms);
    if i == -1 then ms else ms[i := FinalEntry(text)]
  }

  /** `prev.filter(m => !m.isLoading)`. */
  function DropLoading(ms: seq<Entry>): seq<Entry> {
    if ms == [] then []
    else if ms[0].isLoading then DropLoading(ms[1..])
    else [ms[0]] + DropLoading(ms[1..])
  }

  /** `prev.filter(m => !m.isLoading && !m.isTyping)`. */
  function DropPending(ms: seq<Entry>): (r: seq<Entry>)
  {
    if ms == [] then []
    else if ms[0].isLoading || ms[0].isTyping then DropPending(ms[1..])
    else [ms[0]] + DropPending(ms[1..])
  }

  // ---------------------------------------------------------------- properties

  /** Updating the text of the typing entry changes no flag count. */
  lemma ShowTypingCounts(ms: seq<Entry>, text: string, f: Flag)
    ensures Count(ShowTyping(ms, text), f) == Count(ms, f)
  {
    var i := FindTyping(ms);
    if i != -1 {
      CountUpdate(ms, i, ms[i].(text := text), f);
    }
  }

  /** Finishing removes exactly one typing entry when there is one, and adds no loading entry. */
  lemma FinishTypingCounts(ms: seq<Entry>, text: string)
    ensures Count(FinishTyping(ms, text), Typing)
         == if Count(ms, Typing) == 0 then 0 else Count(ms, Typing) - 1
    ensures Count(FinishTyping(ms, text), Loading) <= Count(ms, Loading)
  {
    var i := FindTyping(ms);
    if i != -1 {
      CountUpdate(ms, i, FinalEntry(text), Typing);
      CountUpdate(ms, i, FinalEntry(text), Loading);
    } else {
      CountZero(ms, Typing);
    }
  }

  /**
   * The final tick and the safety timer both finish the first typing entry; when
   * at most one typing entry exists, whichever runs second changes nothing.
   */
  lemma FinishTypingIdempotent(ms: seq<Entry>, text: string, text': string)
    requires Count(ms, Typing) <= 1
    ensures FinishTyping(FinishTyping(ms, text), text') == FinishTyping(ms, text)
  {
    FinishTypingCounts(ms, text);
    CountZero(FinishTyping(ms, text), Typing);
  }

  /** Dropping the placeholders leaves no loading entry and adds no typing entry. */
  lemma {:induction false} DropLoadingCounts(ms: seq<Entry>)
    ensures Count(DropLoading(ms), Loading) == 0
    ensures Count(DropLoading(ms), Typing) <= Count(ms, Typing)
  {
    if ms != [] {
      DropLoadingCounts(ms[1..]);
      if !ms[0].isLoading {
        assert ([ms[0]] + DropLoading(ms[1..]))[1..] == DropLoading(ms[1..]);
      }
    }
  }

  /** `DropLoading` keeps exactly the non-loading entries, in order. */
  lemma {:induction false} DropLoadingKeeps(ms: seq<Entry>)
    ensures forall e :: e in DropLoading(ms) <==> e in ms && !e.isLoading
  {
    if ms != [] {
      DropLoadingKeeps(ms[1..]);
      assert ms == [ms[0]] + ms[1..];
    }
  }

  lemma {:induction false} DropLoadingAppend(a: seq<Entry>, b: seq<Entry>)
    ensures DropLoading(a + b) == DropLoading(a) + DropLoading(b)
  {
    if a == [] {
      assert a + b == b;
    } else {
      assert (a + b)[1..] == a[1..] + b;
      DropLoadingAppend(a[1..], b);
    }
  }

  /** After an error no loading or typing entry is left; every other entry is kept. */
  lemma {:induction false} DropPendingKeeps(ms: seq<Entry>)
    ensures Count(DropPending(ms), Loading) == 0 && Count(DropPending(ms), Typing) == 0
    ensures forall e :: e in DropPending(ms) <==> e in ms && !e.isLoading && !e.isTyping
  {
    if ms != [] {
      DropPendingKeeps(ms[1..]);
      assert ms == [ms[0]] + ms[1..];
      if !ms[0].isLoading && !ms[0].isTyping {
        assert ([ms[0]] + DropPending(ms[1..]))[1..] == DropPending(ms[1..]);
      }
    }
  }

  /** Without placeholders, dropping them changes nothing. */
  lemma {:induction false} DropLoadingNone(ms: seq<Entry>)
    requires Count(ms, Loading) == 0
    ensures DropLoading(ms) == ms
  {
    if ms != [] {
      assert !ms[0].isLoading;
      DropLoadingNone(ms[1..]);
    }
  }

  /** An entry appended to a timeline without typing entries is the one a tick finds. */
  lemma FindTypingAppend(ms: seq<Entry>, e: Entry)
    requires Count(ms, Typing) == 0 && e.isTyping
    ensures FindTyping(ms + [e]) == |ms|
  {
    CountZero(ms, Typing);
    assert (ms + [e])[|ms|] == e;
    assert forall j :: 0 <= j < |ms| ==> (ms + [e])[j] == ms[j];
  }
}
