/** The bounded queue of hook output and its rendering (`agent/hook-core/src/drain.rs`). Lengths are bytes of UTF-8. */
module HookDrain {
  import opened Wrappers
  import opened Text

  const CONTEXT_TRUNC_BYTES := 4096
  const QUEUE_CAP := 32
  const RENDER_CAP_BYTES := 16384

  const TRUNCATED := "\U{2026}[truncated]"
  const HEADER := "--- hook context (from async hooks) ---\n"

  datatype DrainKind = Context(text: string) | UserMessage(text: string) | Failed(text: string) {
    function Label(): string {
      match this
      case Context(_) => "context"
      case UserMessage(_) => "message"
      case Failed(_) => "failed"
    }
  }

  datatype DrainItem = DrainItem(hook: string, kind: DrainKind)

  // ----- truncation -----

  /** `str::is_char_boundary`, for offsets within the text. */
  predicate IsBoundary(s: string, end: nat) {
    end == 0 || (s != "" && Utf8Width(s[0]) <= end && IsBoundary(s[1..], end - Utf8Width(s[0])))
  }

  /** The characters before a boundary. */
  function CharsBefore(s: string, end: nat): nat
    requires IsBoundary(s, end)
  {
    if end == 0 then 0 else 1 + CharsBefore(s[1..], end - Utf8Width(s[0]))
  }

  lemma {:induction false} CharsBeforeMeasure(s: string, end: nat)
    requires IsBoundary(s, end)
    ensures CharsBefore(s, end) <= |s| && Utf8Length(s[..CharsBefore(s, end)]) == end
  {
    if end != 0 {
      var n := CharsBefore(s[1..], end - Utf8Width(s[0]));
      CharsBeforeMeasure(s[1..], end - Utf8Width(s[0]));
      assert s[..n + 1][1..] == s[1..][..n];
    } else {
      assert s[..0] == "";
    }
  }

  lemma {:induction false} PrefixEndsAtBoundary(s: string, n: nat)
    requires n <= |s|
    ensures IsBoundary(s, Utf8Length(s[..n]))
  {
    if n > 0 {
      assert s[..n][1..] == s[1..][..n - 1];
      PrefixEndsAtBoundary(s[1..], n - 1);
    }
  }

  /** One character more makes the text longer. */
  lemma OneMoreChar(s: string, n: nat)
    requires n < |s|
    ensures Utf8Length(s[..n]) < Utf8Length(s[..n + 1])
  {
    Utf8LengthOfConcat(s[..n], [s[n]]);
    assert s[..n + 1] == s[..n] + [s[n]];
    assert [s[n]][1..] == "";
  }

  /** `r` is `s`, or the longest prefix of `s` that fits into `cap` bytes followed by a note. */
  ghost predicate IsTruncated(s: string, cap: nat, r: string) {
    if Utf8Length(s) <= cap then r == s
    else exists n | 0 <= n < |s| :: Utf8Length(s[..n]) <= cap < Utf8Length(s[..n + 1]) && r == s[..n] + TRUNCATED
  }

  method TruncateBytes(s: string, cap: nat) returns (r: string)
    ensures IsTruncated(s, cap, r)
  {
    if Utf8Length(s) <= cap {
      return s;
    }
    var end: nat := cap;
    while end > 0 && !IsBoundary(s, end)
      invariant end <= cap && forall e: nat | end < e <= cap :: !IsBoundary(s, e)
    {
      end := end - 1;
    }
    CharsBeforeMeasure(s, end);
    var n := CharsBefore(s, end);
    assert s[..|s|] == s;
    PrefixEndsAtBoundary(s, n + 1);
    OneMoreChar(s, n);
    r := s[..n] + TRUNCATED;
  }

  lemma NoteLength(t: string)
    requires t == TRUNCATED
    ensures Utf8Length(t) == 14
  {
    assert t[1..] == "[truncated]";
    assert Utf8Length("[truncated]") == 11 by { AsciiLength("[truncated]"); }
  }

  lemma TruncatedLength(s: string, cap: nat, r: string)
    requires IsTruncated(s, cap, r)
    ensures Utf8Length(r) <= cap + 14
  {
    if Utf8Length(s) > cap {
      var n :| 0 <= n < |s| && Utf8Length(s[..n]) <= cap && r == s[..n] + TRUNCATED;
      Utf8LengthOfConcat(s[..n], TRUNCATED);
      NoteLength(TRUNCATED);
    }
  }

  // ----- items -----

  datatype HookOutcome = HookOutcome(
    blocks: bool, reason: Option<string>, additionalContext: Option<string>, userMessage: Option<string>)

  /** The item for a hook's output: its context, or else its message, cut to size; nothing if it has neither. */
  method FromOutcome(hook: string, outcome: HookOutcome) returns (item: Option<DrainItem>)
    ensures item.Some? <==> outcome.additionalContext.Some? || outcome.userMessage.Some?
    ensures item.Some? ==>
              && item.value.hook == hook && (item.value.kind.Context? <==> outcome.additionalContext.Some?)
              && !item.value.kind.Failed?
              && var text := if item.value.kind.Context? then outcome.additionalContext.value
                             else outcome.userMessage.value;
                 IsTruncated(text, CONTEXT_TRUNC_BYTES, item.value.kind.text)
  {
    if outcome.additionalContext.Some? {
      var text := TruncateBytes(outcome.additionalContext.value, CONTEXT_TRUNC_BYTES);
      return Some(DrainItem(hook, Context(text)));
    }
    if outcome.userMessage.Some? {
      var text := TruncateBytes(outcome.userMessage.value, CONTEXT_TRUNC_BYTES);
      return Some(DrainItem(hook, UserMessage(text)));
    }
    return None;
  }

  method FromFailure(hook: string, description: string) returns (item: DrainItem)
    ensures item.hook == hook && item.kind.Failed? && IsTruncated(description, CONTEXT_TRUNC_BYTES, item.kind.text)
  {
    var text := TruncateBytes(description, CONTEXT_TRUNC_BYTES);
    item := DrainItem(hook, Failed(text));
  }

  // ----- the queue -----

  datatype Queue = Queue(items: seq<DrainItem>, cap: nat)

  /** The oldest item goes when the queue is full, then the new one joins: even a queue of capacity 0 holds one. */
  function Pushed(q: Queue, item: DrainItem): Queue {
    q.(items := (if |q.items| >= q.cap && q.items != [] then q.items[1..] else q.items) + [item])
  }

  function PushedAll(q: Queue, items: seq<DrainItem>): Queue {
    if items == [] then q else Pushed(PushedAll(q, items[..|items| - 1]), items[|items| - 1])
  }

  function Newest<T>(s: seq<T>, n: nat): seq<T> {
    if n <= |s| then s[|s| - n..] else s
  }

  /**
   Whatever is pushed onto an empty queue, it holds the newest items, in order, up to its capacity but at least one.
   */
  lemma {:induction false} QueueHoldsTheNewest(items: seq<DrainItem>, cap: nat)
    ensures PushedAll(Queue([], cap), items) == Queue(Newest(items, if cap == 0 then 1 else cap), cap)
  {
    if items != [] {
      var n := |items| - 1;
      QueueHoldsTheNewest(items[..n], cap);
      assert items == items[..n] + [items[n]];
    }
  }

  class DrainQueue {
    var items: seq<DrainItem>
    const cap: nat

    constructor (cap: nat)
      ensures View() == Queue([], cap)
    {
      items, this.cap := [], cap;
    }

    ghost function View(): Queue
      reads this
    {
      Queue(items, cap)
    }

    method Push(item: DrainItem)
      modifies this
      ensures View() == Pushed(old(View()), item)
    {
      if |items| >= cap {
        if items != [] {
          items := items[1..];
        }
      }
      items := items + [item];
    }

    method TakeAll() returns (taken: seq<DrainItem>)
      modifies this
      ensures taken == old(items) && View() == Queue([], cap)
    {
      taken := items;
      items := [];
    }
  }

  // ----- rendering -----

  function Cost(item: DrainItem): nat {
    Utf8Length(item.kind.text) + Utf8Length(item.hook) + 32
  }

  function TotalCost(items: seq<DrainItem>): nat {
    if items == [] then 0 else Cost(items[0]) + TotalCost(items[1..])
  }

  function Entry(item: DrainItem): string {
    "[hook " + item.hook + " (" + item.kind.Label() + ")]\n" + item.kind.text + "\n"
  }

  function Entries(items: seq<DrainItem>): string {
    if items == [] then "" else Entries(items[..|items| - 1]) + Entry(items[|items| - 1])
  }

  /** `from` starts the longest suffix within the cap, or the last item when not even that one fits. */
  predicate KeepsFrom(items: seq<DrainItem>, from: nat) {
    && from < |items|
    && (TotalCost(items[from..]) <= RENDER_CAP_BYTES || from == |items| - 1)
    && forall k | 0 <= k < from :: TotalCost(items[k..]) > RENDER_CAP_BYTES
  }

  /** A longer suffix costs more. */
  lemma {:induction false} LongerCostsMore(items: seq<DrainItem>, k: nat, n: nat)
    requires k <= n <= |items|
    ensures TotalCost(items[n..]) <= TotalCost(items[k..])
    decreases n - k
  {
    if k < n {
      assert items[k..][1..] == items[k + 1..];
      LongerCostsMore(items, k + 1, n);
    }
  }

  /** There is only one suffix to keep. */
  lemma KeepsFromIsUnique(items: seq<DrainItem>, a: nat, b: nat)
    requires KeepsFrom(items, a) && KeepsFrom(items, b)
    ensures a == b
  {
  }

  /** Walk back from the newest item while the running total stays within the cap. */
  method ChooseSuffix(items: seq<DrainItem>) returns (from: nat)
    requires items != []
    ensures KeepsFrom(items, from)
  {
    var total := 0;
    var keepFrom := |items|;
    var i := |items|;
    while i > 0
      invariant 0 <= i == keepFrom <= |items|
      invariant total == TotalCost(items[i..]) && (i < |items| ==> total <= RENDER_CAP_BYTES)
    {
      i := i - 1;
      assert items[i..][1..] == items[i + 1..];
      total := total + Cost(items[i]);
      if total > RENDER_CAP_BYTES {
        break;
      }
      keepFrom := i;
    }
    forall k | 0 <= k < keepFrom ensures TotalCost(items[k..]) > RENDER_CAP_BYTES {
      LongerCostsMore(items, k, i);
    }
    from := if keepFrom < |items| - 1 then keepFrom else |items| - 1;
  }

  function Rendered(items: seq<DrainItem>, from: nat): string
    requires from < |items|
  {
    HEADER + Entries(items[from..])
  }

  method Render(items: seq<DrainItem>) returns (out: Option<string>)
    ensures out.None? <==> items == []
    ensures items != [] ==> exists from :: KeepsFrom(items, from) && out == Some(Rendered(items, from))
  {
    if items == [] {
      return None;
    }
    var from := ChooseSuffix(items);
    var kept := items[from..];
    var text := RenderEntries(kept);
    assert HEADER + text == Rendered(items, from);
    out := Some(HEADER + text);
  }

  method RenderEntries(kept: seq<DrainItem>) returns (text: string)
    ensures text == Entries(kept)
  {
    text := "";
    for n := 0 to |kept|
      invariant text == Entries(kept[..n])
    {
      assert kept[..n + 1][..n] == kept[..n];
      text := text + Entry(kept[n]);
    }
    assert kept[..|kept|] == kept;
  }

  lemma {:induction false} EntryLength(item: DrainItem)
    ensures Utf8Length(Entry(item)) + 13 <= Cost(item)
  {
    var a, b, c, d, e := "[hook ", item.hook, " (", item.kind.Label(), ")]\n";
    var text := item.kind.text;
    AsciiLength(a);
    AsciiLength(c);
    AsciiLength(d);
    AsciiLength(e);
    AsciiLength("\n");
    Utf8LengthOfConcat(a, b);
    Utf8LengthOfConcat(a + b, c);
    Utf8LengthOfConcat(a + b + c, d);
    Utf8LengthOfConcat(a + b + c + d, e);
    Utf8LengthOfConcat(a + b + c + d + e, text);
    Utf8LengthOfConcat(a + b + c + d + e + text, "\n");
  }

  lemma {:induction false} TotalOfConcat(s: seq<DrainItem>, item: DrainItem)
    ensures TotalCost(s + [item]) == TotalCost(s) + Cost(item)
  {
    if s != [] {
      assert (s + [item])[1..] == s[1..] + [item];
      TotalOfConcat(s[1..], item);
    }
  }

  lemma {:induction false} EntriesLength(items: seq<DrainItem>)
    ensures Utf8Length(Entries(items)) + 13 * |items| <= TotalCost(items)
  {
    if items != [] {
      var n := |items| - 1;
      EntriesLength(items[..n]);
      OneMoreEntryLength(items[..n], items[n]);
      assert items == items[..n] + [items[n]];
    }
  }

  lemma OneMoreEntryLength(items: seq<DrainItem>, item: DrainItem)
    requires Utf8Length(Entries(items)) + 13 * |items| <= TotalCost(items)
    ensures Utf8Length(Entries(items + [item])) + 13 * (|items| + 1) <= TotalCost(items + [item])
  {
    var all := items + [item];
    assert all[..|items|] == items && all[|items|] == item;
    EntryLength(item);
    Utf8LengthOfConcat(Entries(items), Entry(item));
    TotalOfConcat(items, item);
  }

  /** The rendered block stays within the header and the cap whenever the newest item does. */
  lemma RenderedLength(items: seq<DrainItem>, from: nat)
    requires items != [] && KeepsFrom(items, from) && Cost(items[|items| - 1]) <= RENDER_CAP_BYTES
    ensures Utf8Length(Rendered(items, from)) <= Utf8Length(HEADER) + RENDER_CAP_BYTES - 13
  {
    var n := |items| - 1;
    assert items[n..] == [items[n]] && TotalCost(items[n..][1..]) == 0;
    EntriesLength(items[from..]);
    Utf8LengthOfConcat(HEADER, Entries(items[from..]));
  }

  /** An item made from a hook's output or failure fits unless the hook's name is longer than 12242 bytes. */
  lemma TruncatedItemFits(item: DrainItem, text: string)
    requires IsTruncated(text, CONTEXT_TRUNC_BYTES, item.kind.text) && Utf8Length(item.hook) <= 12242
    ensures Cost(item) <= RENDER_CAP_BYTES
  {
    TruncatedLength(text, CONTEXT_TRUNC_BYTES, item.kind.text);
  }

  // ----- what an entry says -----

  /** An entry names its hook, says what kind of output it is, and ends with the whole text. */
  lemma EntryShows(item: DrainItem)
    ensures var e := Entry(item);
            var kind := match item.kind
                         case Context(_) => "context" case UserMessage(_) => "message" case Failed(_) => "failed";
            var head := "[hook " + item.hook + " (" + kind + ")]\n";
            head <= e && e[|head|..] == item.kind.text + "\n"
  {
  }

  /** Entries follow each other in the order of their items, and none is left out. */
  lemma {:induction false} EntriesInOrder(a: seq<DrainItem>, b: seq<DrainItem>)
    ensures Entries(a + b) == Entries(a) + Entries(b)
  {
    if b != [] {
      var n := |b| - 1;
      EntriesInOrder(a, b[..n]);
      assert (a + b)[..|a| + n] == a + b[..n] && (a + b)[|a| + n] == b[n];
      ConcatAgain(Entries(a), Entries(b[..n]), Entry(b[n]));
    } else {
      assert a + b == a;
    }
  }

  lemma ConcatAgain(a: string, b: string, c: string)
    ensures (a + b) + c == a + (b + c)
  {
  }

  lemma OneEntry(item: DrainItem)
    ensures Entries([item]) == Entry(item)
  {
    assert [item][..0] == [];
    assert Entries([item]) == "" + Entry(item);
  }

  /** Where the bracket with the label opens. */
  function LabelAt(s: string): nat {
    if s == "" || s[0] == '(' then 0 else 1 + LabelAt(s[1..])
  }

  lemma {:induction false} LabelAfterName(name: string, rest: string)
    requires '(' !in name
    ensures LabelAt(name + "(" + rest) == |name|
  {
    if name != "" {
      assert (name + "(" + rest)[1..] == name[1..] + "(" + rest;
      LabelAfterName(name[1..], rest);
    }
  }

  /** Reading an entry back: hook, kind and text, as long as the hook's name has no bracket. */
  function ReadEntry(s: string): Option<DrainItem> {
    var at := LabelAt(s);
    if at < 7 || at + 11 > |s| then None
    else
      var hook := s[6..at - 1];
      if s[at + 1] == 'f' then Some(DrainItem(hook, Failed(s[at + 10..|s| - 1])))
      else if at + 12 > |s| then None
      else if s[at + 1] == 'c' then Some(DrainItem(hook, Context(s[at + 11..|s| - 1])))
      else Some(DrainItem(hook, UserMessage(s[at + 11..|s| - 1])))
  }

  lemma EntryRoundTrip(item: DrainItem)
    requires '(' !in item.hook
    ensures ReadEntry(Entry(item)) == Some(item)
  {
    var name := "[hook " + item.hook + " ";
    var rest := item.kind.Label() + ")]\n" + item.kind.text + "\n";
    var e := Entry(item);
    assert e == name + "(" + rest;
    LabelAfterName(name, rest);
    var at := |name|;
    assert e[6..at - 1] == item.hook;
    assert e[at + 1] == item.kind.Label()[0];
    var skip := |item.kind.Label()| + 4;
    assert e[at + skip..|e| - 1] == item.kind.text;
  }

  /** Everything that waits is shown exactly if it fits, or if it is one item only. */
  lemma AllShownExactly(items: seq<DrainItem>)
    requires items != []
    ensures KeepsFrom(items, 0) <==> TotalCost(items) <= RENDER_CAP_BYTES || |items| == 1
  {
    assert items[0..] == items;
  }
}
