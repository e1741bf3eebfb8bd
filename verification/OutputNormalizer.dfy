/**
 The per-turn character budget for tool output (`agent/agent-core/src/tool_output_normalizer.rs`) and the executor that
 threads it through the calls of a turn (`agent/agent-core/src/agent/react/act_executor.rs`). Lengths are characters.
 */
module OutputNormalizer {
  import opened Wrappers

  datatype Strategy = Inline | HeadTail | SummaryOnly | FileRef | FileRefWithExcerpt {
    predicate UsesFile() {
      FileRef? || FileRefWithExcerpt?
    }
  }

  datatype Hint = Hint(preferred: Option<Strategy>, safeInlineChars: Option<nat>, preferHeadTail: bool)

  datatype Config = Config(
    inlineLimit: nat, displayLimit: nat, excerptLimit: nat, headTailLimit: nat, fileRefThreshold: nat, budget: nat)

  /**
   One tool call's raw result, and the texts that depend on the outside: the summary and the stored file's path, if
   any.
   */
  datatype Call = Call(
    tool: string, raw: string, isError: bool, hint: Option<Hint>, summary: string, stored: Option<string>)

  datatype Output = Output(
    rawContent: Option<string>,
    observationText: string,
    displayText: string,
    storagePath: Option<string>,
    strategy: Strategy,
    rawChars: nat,
    observationChars: nat,
    truncated: bool,
    isError: bool)

  function Min(a: nat, b: nat): nat {
    if a < b then a else b
  }

  /** Saturating subtraction. */
  function Remaining(budget: nat, used: nat): nat {
    if used < budget then budget - used else 0
  }

  predicate Truncatable(tool: string) {
    tool == "web_fetcher" || tool == "web_search"
  }

  function TruncateText(text: string, max: nat): string {
    if max == 0 then "" else if |text| <= max then text else text[..max] + "..."
  }

  function TruncateExact(text: string, max: nat): string {
    if max == 0 then ""
    else if |text| <= max then text
    else if max <= 3 then text[..max]
    else text[..max - 3] + "..."
  }

  function SplitHeadTail(text: string, limit: nat): (string, string) {
    if |text| <= limit * 2 then (text, "") else (text[..limit], text[|text| - limit..])
  }

  function ExhaustedStrategy(s: Strategy): Strategy {
    if s.UsesFile() then FileRef else SummaryOnly
  }

  function PreferredStrategy(s: Strategy, hint: Hint, raw: nat, safe: nat, remaining: nat, c: Config): Strategy {
    if remaining == 0 then ExhaustedStrategy(s)
    else if s.Inline? && raw > safe then
      if hint.preferHeadTail then HeadTail else if raw > c.fileRefThreshold then FileRefWithExcerpt else SummaryOnly
    else if s.HeadTail? && remaining < c.headTailLimit / 2 then
      if raw > c.fileRefThreshold / 2 then FileRefWithExcerpt else SummaryOnly
    else s
  }

  function BaseStrategy(tool: string, raw: nat, isError: bool, c: Config): Strategy {
    if tool == "bash" || tool == "powershell" then
      if raw <= c.inlineLimit then Inline else if raw <= c.fileRefThreshold then HeadTail else FileRefWithExcerpt
    else if tool == "web_fetcher" || tool == "web_search" then
      if raw <= c.inlineLimit then Inline else FileRefWithExcerpt
    else if raw <= c.inlineLimit then Inline
    else if raw <= c.fileRefThreshold then (if isError then HeadTail else SummaryOnly)
    else FileRefWithExcerpt
  }

  function UnhintedStrategy(tool: string, raw: nat, isError: bool, remaining: nat, c: Config): Strategy {
    var base := BaseStrategy(tool, raw, isError, c);
    if remaining == 0 then ExhaustedStrategy(base)
    else if raw <= remaining then base
    else if (tool == "bash" || tool == "powershell") && remaining >= c.headTailLimit / 2 then HeadTail
    else if tool == "web_fetcher" || tool == "web_search" then FileRefWithExcerpt
    else if raw > c.fileRefThreshold / 2 then FileRefWithExcerpt
    else if isError && remaining >= c.headTailLimit / 2 then HeadTail
    else SummaryOnly
  }

  function DetermineStrategy(
    tool: string, raw: nat, isError: bool, hint: Option<Hint>, remaining: nat, c: Config): Strategy
  {
    if !Truncatable(tool) then Inline
    else if hint.None? then UnhintedStrategy(tool, raw, isError, remaining, c)
    else
      var safe := hint.value.safeInlineChars.UnwrapOr(c.inlineLimit);
      if raw <= safe && remaining >= raw then Inline
      else if hint.value.preferred.Some? then
        PreferredStrategy(hint.value.preferred.value, hint.value, raw, safe, remaining, c)
      else if hint.value.preferHeadTail && raw > safe && remaining > 0 then
        if raw > c.fileRefThreshold then FileRefWithExcerpt else HeadTail
      else UnhintedStrategy(tool, raw, isError, remaining, c)
  }

  /** Without a hint the table comes down to two tests, and the branches for shell tools are never taken. */
  lemma WebStrategyExactly(tool: string, raw: nat, isError: bool, remaining: nat, c: Config)
    requires tool == "web_fetcher" || tool == "web_search"
    ensures var s := DetermineStrategy(tool, raw, isError, None, remaining, c);
            && (s == Inline <==> remaining > 0 && raw <= c.inlineLimit && raw <= remaining)
            && (s == SummaryOnly <==> remaining == 0 && raw <= c.inlineLimit)
            && (s == FileRef <==> remaining == 0 && raw > c.inlineLimit)
            && s != HeadTail
  {
  }

  /**
   When a truncatable tool's text stays inline, with any hint: it fits what is safe, and what is left unless inline
   was asked for.
   */
  lemma InlineExactly(tool: string, raw: nat, isError: bool, hint: Option<Hint>, remaining: nat, c: Config)
    requires Truncatable(tool)
    ensures var safe := if hint.Some? then hint.value.safeInlineChars.UnwrapOr(c.inlineLimit) else c.inlineLimit;
            var asked := if hint.Some? then hint.value.preferred else None;
            DetermineStrategy(tool, raw, isError, hint, remaining, c) == Inline <==>
              if asked == Some(Inline) then raw <= safe && (remaining > 0 || raw == 0)
              else if asked.Some? then raw <= safe && raw <= remaining
              else
                || (hint.Some? && raw <= safe && raw <= remaining)
                || (!(hint.Some? && hint.value.preferHeadTail && raw > safe)
                    && 0 < remaining && raw <= remaining && raw <= c.inlineLimit)
  {
  }

  /** The text does not simply stay: it is longer than what is safe, or than what is left. */
  predicate Large(raw: nat, hint: Hint, remaining: nat, c: Config) {
    !(raw <= hint.safeInlineChars.UnwrapOr(c.inlineLimit) && raw <= remaining)
  }

  /** When a truncatable tool's text is shown by its two ends: only if a hint asks for that, and there is room. */
  lemma HeadTailExactly(tool: string, raw: nat, isError: bool, hint: Hint, remaining: nat, c: Config)
    requires Truncatable(tool)
    ensures var safe := hint.safeInlineChars.UnwrapOr(c.inlineLimit);
            DetermineStrategy(tool, raw, isError, Some(hint), remaining, c) == HeadTail <==>
              && Large(raw, hint, remaining, c) && remaining > 0
              && match hint.preferred
                 case Some(HeadTail) => remaining >= c.headTailLimit / 2
                 case Some(Inline) => raw > safe && hint.preferHeadTail
                 case Some(_) => false
                 case None => raw > safe && hint.preferHeadTail && raw <= c.fileRefThreshold
  {
  }

  /** A preference other than inline is followed exactly if the text is large and there is room for it. */
  lemma PreferenceIsFollowedExactly(
    tool: string, raw: nat, isError: bool, hint: Hint, remaining: nat, c: Config, asked: Strategy)
    requires Truncatable(tool) && hint.preferred == Some(asked) && asked != Inline && Large(raw, hint, remaining, c)
    ensures var s := DetermineStrategy(tool, raw, isError, Some(hint), remaining, c);
            && (s == asked <==>
                  if remaining == 0 then asked == SummaryOnly || asked == FileRef
                  else asked == HeadTail ==> remaining >= c.headTailLimit / 2)
            && (remaining == 0 ==> s == if asked.FileRef? || asked.FileRefWithExcerpt? then FileRef else SummaryOnly)
            && (remaining > 0 && s != asked ==>
                  s == if raw > c.fileRefThreshold / 2 then FileRefWithExcerpt else SummaryOnly)
  {
  }

  function Decimal(n: nat): string {
    if n < 10 then [(n as char) + '0'] else Decimal(n / 10) + [(n % 10) as char + '0']
  }

  function InlineOutput(call: Call, c: Config): Output {
    Output(Some(call.raw), call.raw, TruncateText(call.raw, c.displayLimit), None, Inline, |call.raw|, |call.raw|,
        false, false)
  }

  function HeadTailOutput(call: Call, c: Config): Output {
    var (head, tail) := SplitHeadTail(call.raw, c.headTailLimit);
    var observation := if tail == "" then head else "Head:\n" + head + "\n...\nTail:\n" + tail;
    var display := if tail == "" then TruncateText(head, c.displayLimit)
                   else TruncateText(head, c.displayLimit / 2) + "..." + TruncateText(tail, c.displayLimit / 2);
    Output(if |call.raw| > c.fileRefThreshold then None else Some(call.raw),
           observation, display, None, HeadTail, |call.raw|, |observation|, true, false)
  }

  function SummaryOutput(call: Call, c: Config): Output {
    Output(None, call.summary, TruncateText(call.summary, c.displayLimit), None, SummaryOnly, |call.raw|,
        |call.summary|,
           true, false)
  }

  function FileRefOutput(call: Call, strategy: Strategy, remaining: nat, c: Config): Output {
    var limit := Min(remaining, c.excerptLimit);
    var excerpt := if strategy.FileRefWithExcerpt? && limit > 0 then Some(TruncateExact(call.raw, limit)) else None;
    var hint := if call.stored.Some? then "Full output saved to: " + call.stored.value
        else "Full output saved to file storage.";
    var observation :=
      "Output too large (" + Decimal(|call.raw|) + " chars). " + hint
      + if excerpt.Some? then "\nExcerpt:\n" + excerpt.value
        else if call.stored.None? then "\nUse read tool to view full output." else "";
    var display := if excerpt.Some? then TruncateText("Saved large output. Excerpt: " + excerpt.value, c.displayLimit)
                   else if call.stored.Some?
                       then TruncateText("Saved large output to " + call.stored.value, c.displayLimit)
                   else "Large output (" + Decimal(|call.raw|) + " chars)";
    Output(None, observation, display, call.stored, strategy, |call.raw|, |observation|, true, false)
  }

  function Built(call: Call, remaining: nat, c: Config): Output {
    var strategy := DetermineStrategy(call.tool, |call.raw|, call.isError, call.hint, remaining, c);
    match strategy
    case Inline => InlineOutput(call, c)
    case HeadTail => HeadTailOutput(call, c)
    case SummaryOnly => SummaryOutput(call, c)
    case _ => FileRefOutput(call, strategy, remaining, c)
  }

  /** The last word of the budget. */
  function Budgeted(o: Output, remaining: nat, tool: string): Output {
    if !Truncatable(tool) || o.observationChars <= remaining then o
    else
      var text := TruncateExact(o.observationText, remaining);
      o.(observationText := text,
         observationChars := |text|,
         truncated := true,
         strategy := if o.storagePath.Some? then FileRefWithExcerpt else SummaryOnly)
  }

  function Normalized(call: Call, used: nat, c: Config): Output {
    var remaining := Remaining(c.budget, used);
    Budgeted(Built(call, remaining, c), remaining, call.tool).(isError := call.isError)
  }

  class NormalizedToolOutput {
    var rawContent: Option<string>
    var observationText: string
    var displayText: string
    var storagePath: Option<string>
    var strategy: Strategy
    var rawChars: nat
    var observationChars: nat
    var truncated: bool
    var isError: bool

    constructor (o: Output)
      ensures View() == o
    {
      rawContent, observationText, displayText, storagePath := o.rawContent, o.observationText, o.displayText,
          o.storagePath;
      strategy, rawChars, observationChars := o.strategy, o.rawChars, o.observationChars;
      truncated, isError := o.truncated, o.isError;
    }

    ghost function View(): Output
      reads this
    {
      Output(rawContent, observationText, displayText, storagePath, strategy, rawChars, observationChars, truncated,
          isError)
    }

    method ApplyObservationBudget(remaining: nat, tool: string)
      modifies this
      ensures View() == Budgeted(old(View()), remaining, tool)
    {
      if !Truncatable(tool) {
        return;
      }
      if observationChars <= remaining {
        return;
      }
      observationText := TruncateExact(observationText, remaining);
      observationChars := |observationText|;
      truncated := true;
      strategy := if storagePath.Some? then FileRefWithExcerpt else SummaryOnly;
    }
  }

  method NormalizeToolOutput(call: Call, used: nat, c: Config) returns (output: NormalizedToolOutput)
    ensures fresh(output) && output.View() == Normalized(call, used, c)
  {
    var remaining := Remaining(c.budget, used);
    output := new NormalizedToolOutput(Built(call, remaining, c));
    output.ApplyObservationBudget(remaining, call.tool);
    output.isError := call.isError;
  }

  /**
   `Shortened(text, max, r)`: `r` is the text if that fits, and otherwise a prefix of it, with an ellipsis if there is
   room.
   */
  predicate Shortened(text: string, max: nat, r: string) {
    if |text| <= max then r == text
    else |r| == max && r == if max <= 3 then text[..max] else text[..max - 3] + "..."
  }

  lemma TruncateExactFits(text: string, max: nat)
    ensures Shortened(text, max, TruncateExact(text, max)) && |TruncateExact(text, max)| == Min(|text|, max)
  {
  }

  /** Head and tail never overlap. */
  lemma HeadAndTailAreApart(text: string, limit: nat)
    ensures var (head, tail) := SplitHeadTail(text, limit);
            exists middle :: text == head + middle + tail && (middle == "" <==> |text| <= 2 * limit)
  {
    var (head, tail) := SplitHeadTail(text, limit);
    if |text| > 2 * limit {
      assert text == head + text[limit..|text| - limit] + tail;
    } else {
      assert text == head + "" + tail;
    }
  }

  /**
   One output: the counter is the length of the text, a text that does not count as truncated is the raw text, and a
   truncatable tool stays within what is left.
   */
  lemma OneObservation(call: Call, used: nat, c: Config)
    ensures var o := Normalized(call, used, c);
            && o.observationChars == |o.observationText|
            && (!o.truncated ==> o.observationText == call.raw)
            && (Truncatable(call.tool) ==> o.observationChars <= Remaining(c.budget, used))
            && (!Truncatable(call.tool) ==> o.observationText == call.raw && !o.truncated)
  {
    var remaining := Remaining(c.budget, used);
    var o := Built(call, remaining, c);
    BuiltCounts(call, remaining, c);
    TruncateExactFits(o.observationText, remaining);
  }

  lemma BuiltCounts(call: Call, remaining: nat, c: Config)
    ensures var o := Built(call, remaining, c);
            && o.observationChars == |o.observationText|
            && (!o.truncated <==> o.strategy.Inline?)
            && (o.strategy.Inline? ==> o.observationText == call.raw)
            && (!Truncatable(call.tool) ==> o.strategy.Inline?)
  {
  }

  // ----- a turn -----

  /**
   The outputs of a turn's calls; `marks` is the counter before each call and at the end. Every call's characters
   count.
   */
  ghost predicate IsTurn(calls: seq<Call>, outputs: seq<Output>, marks: seq<nat>, c: Config) {
    && |outputs| == |calls| && |marks| == |calls| + 1
    && forall n {:trigger outputs[n]} | 0 <= n < |calls| ::
         outputs[n] == Normalized(calls[n], marks[n], c) && marks[n + 1] == marks[n] + outputs[n].observationChars
  }

  /** Characters of the observations of the truncatable tools. */
  function TruncatableChars(calls: seq<Call>, outputs: seq<Output>): nat
    requires |calls| == |outputs|
  {
    if calls == [] then 0
    else
      var n := |calls| - 1;
      TruncatableChars(calls[..n], outputs[..n])
      + if Truncatable(calls[n].tool) then |outputs[n].observationText| else 0
  }

  lemma TurnGoesOn(calls: seq<Call>, outputs: seq<Output>, marks: seq<nat>, c: Config, call: Call, o: Output)
    requires IsTurn(calls, outputs, marks, c) && o == Normalized(call, marks[|calls|], c)
    ensures IsTurn(calls + [call], outputs + [o], marks + [marks[|calls|] + o.observationChars], c)
  {
  }

  class ToolCallExecutor {
    var usedChars: nat

    constructor ()
      ensures usedChars == 0
    {
      usedChars := 0;
    }

    method Normalize(call: Call, c: Config) returns (o: Output)
      modifies this
      ensures o == Normalized(call, old(usedChars), c) && usedChars == old(usedChars) + o.observationChars
    {
      var prev := usedChars;
      var output := NormalizeToolOutput(call, prev, c);
      usedChars := prev + output.observationChars;
      o := Output(output.rawContent, output.observationText, output.displayText, output.storagePath, output.strategy,
                  output.rawChars, output.observationChars, output.truncated, output.isError);
    }

    /** The calls run one after the other; `cancelled(n)` is what the check before call `n` finds. */
    method Execute(calls: seq<Call>, c: Config, cancelled: nat -> bool)
      returns (result: Option<seq<Output>>, ghost outputs: seq<Output>, ghost marks: seq<nat>)
      modifies this
      ensures |outputs| <= |calls| && IsTurn(calls[..|outputs|], outputs, marks, c)
      ensures marks[0] == old(usedChars) && marks[|outputs|] == usedChars
      ensures result == if |outputs| == |calls| && (calls == [] ==> !cancelled(0)) then Some(outputs) else None
      ensures forall n: nat | n < |outputs| :: !cancelled(n)
      ensures |outputs| < |calls| ==> cancelled(|outputs|)
    {
      var done: seq<Output> := [];
      outputs, marks := [], [usedChars];
      if cancelled(0) {
        return None, [], [usedChars];
      }
      for n := 0 to |calls|
        invariant outputs == done && IsTurn(calls[..n], done, marks, c)
        invariant marks[0] == old(usedChars) && marks[n] == usedChars
        invariant forall m: nat | m < n :: !cancelled(m)
      {
        if cancelled(n) {
          return None, done, marks;
        }
        var o := Normalize(calls[n], c);
        TurnGoesOn(calls[..n], done, marks, c, calls[n], o);
        assert calls[..n] + [calls[n]] == calls[..n + 1];
        done, marks := done + [o], marks + [usedChars];
        outputs := done;
      }
      assert calls[..|calls|] == calls;
      result := Some(done);
    }
  }

  /** What one output contributes: the exact count, and no more than is left where the tool is truncatable. */
  predicate KeepsToBudget(call: Call, o: Output, used: nat, budget: nat) {
    && o.observationChars == |o.observationText|
    && (Truncatable(call.tool) ==> o.observationChars <= Remaining(budget, used))
  }

  lemma {:induction false} BudgetAddsUp(calls: seq<Call>, outputs: seq<Output>, marks: seq<nat>, budget: nat)
    requires |outputs| == |calls| && |marks| == |calls| + 1
    requires forall n {:trigger outputs[n]} | 0 <= n < |calls| ::
               KeepsToBudget(calls[n], outputs[n], marks[n], budget)
                   && marks[n + 1] == marks[n] + outputs[n].observationChars
    ensures marks[0] + TruncatableChars(calls, outputs) <= marks[|calls|]
    ensures TruncatableChars(calls, outputs) <= Remaining(budget, marks[0])
  {
    if calls != [] {
      var n := |calls| - 1;
      BudgetAddsUp(calls[..n], outputs[..n], marks[..n + 1], budget);
      assert KeepsToBudget(calls[n], outputs[n], marks[n], budget);
    }
  }

  /** Over any turn, the truncatable tools together stay within what was left at its start. */
  lemma TurnStaysWithinBudget(calls: seq<Call>, outputs: seq<Output>, marks: seq<nat>, c: Config)
    requires IsTurn(calls, outputs, marks, c)
    ensures TruncatableChars(calls, outputs) <= Remaining(c.budget, marks[0])
  {
    forall n {:trigger outputs[n]} | 0 <= n < |calls|
      ensures KeepsToBudget(calls[n], outputs[n], marks[n], c.budget)
              && marks[n + 1] == marks[n] + outputs[n].observationChars
    {
      OneObservation(calls[n], marks[n], c);
    }
    BudgetAddsUp(calls, outputs, marks, c.budget);
  }

  /** Once other tools have used the budget up, a truncatable tool shows nothing at all. */
  lemma ExhaustedBudgetShowsNothing(call: Call, used: nat, c: Config)
    requires used >= c.budget && Truncatable(call.tool)
    ensures Normalized(call, used, c).observationText == ""
  {
    OneObservation(call, used, c);
  }

  // ----- what a reader of one output is told -----

  function ReadDecimal(s: string): int {
    if s == "" then 0 else 10 * ReadDecimal(s[..|s| - 1]) + (s[|s| - 1] as int - '0' as int)
  }

  /** A count that is shown is the count. */
  lemma {:induction false} DecimalReadsBack(n: nat)
    ensures ReadDecimal(Decimal(n)) == n && forall c | c in Decimal(n) :: '0' <= c <= '9'
  {
    if n >= 10 {
      DecimalReadsBack(n / 10);
      assert Decimal(n)[..|Decimal(n)| - 1] == Decimal(n / 10);
    } else {
      assert Decimal(n)[..0] == "";
    }
  }

  predicate EndsWith(text: string, end: string) {
    |end| <= |text| && text[|text| - |end|..] == end
  }

  /** Both ends of a long text, one after the other; with a limit of zero nothing at all. */
  predicate TellsEnds(raw: string, limit: nat, text: string)
    requires |raw| > 2 * limit
  {
    if limit == 0 then text == ""
    else
      && "Head:\n" + raw[..limit] <= text && EndsWith(text, "\n...\nTail:\n" + raw[|raw| - limit..])
      && |text| == 2 * limit + 17
  }

  /**
   For an output that is too large to show: how long it is, that it was saved, where if that is known, and an excerpt if
   one was asked for and there is room.
   */
  predicate TellsFile(call: Call, excerpt: bool, limit: nat, text: string) {
    var size := "Output too large (" + Decimal(|call.raw|) + " chars). ";
    && size + (if call.stored.Some? then "Full output saved to: " + call.stored.value
               else "Full output saved to file storage.") <= text
    && (excerpt && limit > 0 ==> EndsWith(text, "\nExcerpt:\n" + TruncateExact(call.raw, limit)))
  }

  predicate Tells(call: Call, strategy: Strategy, remaining: nat, c: Config, text: string) {
    match strategy
    case Inline => text == call.raw
    case SummaryOnly => text == call.summary
    case HeadTail =>
      if |call.raw| <= 2 * c.headTailLimit then text == call.raw else TellsEnds(call.raw, c.headTailLimit, text)
    case FileRef => TellsFile(call, false, 0, text)
    case FileRefWithExcerpt => TellsFile(call, true, Min(remaining, c.excerptLimit), text)
  }

  lemma BuiltTells(call: Call, remaining: nat, c: Config)
    ensures var strategy := DetermineStrategy(call.tool, |call.raw|, call.isError, call.hint, remaining, c);
            Tells(call, strategy, remaining, c, Built(call, remaining, c).observationText)
  {
    var strategy := DetermineStrategy(call.tool, |call.raw|, call.isError, call.hint, remaining, c);
    var text := Built(call, remaining, c).observationText;
    if strategy.HeadTail? && |call.raw| > 2 * c.headTailLimit {
      EndsAreTold(call, c);
    } else if strategy.UsesFile() {
      FileIsTold(call, strategy, remaining, c);
    }
  }

  lemma EndsAreTold(call: Call, c: Config)
    requires |call.raw| > 2 * c.headTailLimit
    ensures TellsEnds(call.raw, c.headTailLimit, HeadTailOutput(call, c).observationText)
  {
    var limit := c.headTailLimit;
    var head, tail := call.raw[..limit], call.raw[|call.raw| - limit..];
    if limit > 0 {
      var a, b := "Head:\n" + head, "\n...\nTail:\n" + tail;
      assert HeadTailOutput(call, c).observationText == a + b;
      TwoParts(a, b);
    }
  }

  lemma TwoParts(a: string, b: string)
    ensures a <= a + b && EndsWith(a + b, b)
  {
  }

  lemma ThreeParts(a: string, b: string, c: string)
    ensures a <= a + b + c && a + b <= a + b + c && EndsWith(a + b + c, c) && a + b + c == a + (b + c)
  {
    assert (a + b + c)[..|a|] == a;
  }

  lemma FileIsTold(call: Call, strategy: Strategy, remaining: nat, c: Config)
    requires strategy.UsesFile()
    ensures TellsFile(call, strategy.FileRefWithExcerpt?, Min(remaining, c.excerptLimit),
                      FileRefOutput(call, strategy, remaining, c).observationText)
  {
    var limit := Min(remaining, c.excerptLimit);
    var head := "Output too large (" + Decimal(|call.raw|) + " chars). ";
    var hint := if call.stored.Some? then "Full output saved to: " + call.stored.value
        else "Full output saved to file storage.";
    var rest := if strategy.FileRefWithExcerpt? && limit > 0 then "\nExcerpt:\n" + TruncateExact(call.raw, limit)
                else if call.stored.None? then "\nUse read tool to view full output." else "";
    ThreeParts(head, hint, rest);
    assert FileRefOutput(call, strategy, remaining, c).observationText == head + hint + rest;
  }

  /** All but the two web tools are shown in full, whatever the budget and whatever a hint says. */
  lemma OtherToolsAreShownInFull(call: Call, used: nat, c: Config)
    ensures call.tool != "web_fetcher" && call.tool != "web_search" ==>
              var o := Normalized(call, used, c);
              o.observationText == call.raw && o.strategy == Inline && !o.truncated && o.rawContent == Some(call.raw)
    ensures call.tool == "web_fetcher" || call.tool == "web_search" ==>
              |Normalized(call, used, c).observationText| <= Remaining(c.budget, used)
  {
    OneObservation(call, used, c);
  }

  /** What each strategy keeps besides the text. */
  lemma BuiltKeeps(call: Call, remaining: nat, c: Config)
    ensures var strategy := DetermineStrategy(call.tool, |call.raw|, call.isError, call.hint, remaining, c);
            var o := Built(call, remaining, c);
            && o.rawChars == |call.raw| && o.strategy == strategy
            && o.storagePath == (if strategy.UsesFile() then call.stored else None)
            && o.rawContent == if strategy.Inline? || (strategy.HeadTail? && |call.raw| <= c.fileRefThreshold)
                               then Some(call.raw) else None
  {
  }

  /**
   Every output, for every tool, hint and budget: the text of its strategy, cut for a truncatable tool to exactly what
   is left; the error flag and the length of the call; the raw text when it is inline or short enough; and the path when
   there is a file. It counts as truncated exactly when it is not inline or was cut.
   */
  lemma OutputTells(call: Call, used: nat, c: Config)
    ensures var left := Remaining(c.budget, used);
            var strategy := DetermineStrategy(call.tool, |call.raw|, call.isError, call.hint, left, c);
            var o, text := Normalized(call, used, c), Built(call, left, c).observationText;
            var cut := Truncatable(call.tool) && |text| > left;
            && Tells(call, strategy, left, c, text)
            && o.observationText == (if cut then TruncateExact(text, left) else text)
            && (o.isError <==> call.isError) && o.rawChars == |call.raw|
            && o.storagePath == (if strategy.UsesFile() then call.stored else None)
            && o.rawContent == (if strategy.Inline? || (strategy.HeadTail? && |call.raw| <= c.fileRefThreshold)
                                then Some(call.raw) else None)
            && (o.truncated <==> !strategy.Inline? || cut)
            && o.strategy == if !cut then strategy else if o.storagePath.Some? then FileRefWithExcerpt else SummaryOnly
  {
    BuiltTells(call, Remaining(c.budget, used), c);
    BuiltKeeps(call, Remaining(c.budget, used), c);
    BuiltCounts(call, Remaining(c.budget, used), c);
  }

  lemma ShortTextFits(text: string, max: nat)
    ensures |TruncateText(text, max)| <= max + 3
    ensures 0 < max && |text| <= max ==> TruncateText(text, max) == text
  {
  }

  lemma FileDisplayIsShort(call: Call, strategy: Strategy, remaining: nat, c: Config)
    requires call.stored.Some? || (strategy.FileRefWithExcerpt? && Min(remaining, c.excerptLimit) > 0)
    ensures |FileRefOutput(call, strategy, remaining, c).displayText| <= c.displayLimit + 3
  {
    var limit := Min(remaining, c.excerptLimit);
    if strategy.FileRefWithExcerpt? && limit > 0 {
      ShortTextFits("Saved large output. Excerpt: " + TruncateExact(call.raw, limit), c.displayLimit);
    } else {
      ShortTextFits("Saved large output to " + call.stored.value, c.displayLimit);
    }
  }

  lemma HeadTailDisplayIsShort(call: Call, c: Config)
    ensures |HeadTailOutput(call, c).displayText| <= c.displayLimit + 9
  {
    var (head, tail) := SplitHeadTail(call.raw, c.headTailLimit);
    ShortTextFits(head, c.displayLimit);
    ShortTextFits(head, c.displayLimit / 2);
    ShortTextFits(tail, c.displayLimit / 2);
  }

  /** What a user sees stays short, except that the bare note on a large output is not cut. */
  lemma DisplayStaysShort(call: Call, used: nat, c: Config)
    ensures var left := Remaining(c.budget, used);
            var strategy := DetermineStrategy(call.tool, |call.raw|, call.isError, call.hint, left, c);
            var excerpt := strategy.FileRefWithExcerpt? && Min(left, c.excerptLimit) > 0;
            || (strategy.UsesFile() && !excerpt && call.stored.None?)
            || |Normalized(call, used, c).displayText| <= c.displayLimit + 9
  {
    var left := Remaining(c.budget, used);
    var strategy := DetermineStrategy(call.tool, |call.raw|, call.isError, call.hint, left, c);
    match strategy
    case Inline => ShortTextFits(call.raw, c.displayLimit);
    case SummaryOnly => ShortTextFits(call.summary, c.displayLimit);
    case HeadTail => HeadTailDisplayIsShort(call, c);
    case _ =>
      if call.stored.Some? || (strategy.FileRefWithExcerpt? && Min(left, c.excerptLimit) > 0) {
        FileDisplayIsShort(call, strategy, left, c);
      }
  }

  /** A text that stays inline is shown to the user as it is, or its beginning with an ellipsis. */
  lemma InlineIsDisplayed(call: Call, used: nat, c: Config)
    requires DetermineStrategy(call.tool, |call.raw|, call.isError, call.hint, Remaining(c.budget, used), c) == Inline
    requires 0 < c.displayLimit
    ensures var shown := Normalized(call, used, c).displayText;
            if |call.raw| <= c.displayLimit then shown == call.raw
            else |shown| == c.displayLimit + 3 && call.raw[..c.displayLimit] <= shown && EndsWith(shown, "...")
  {
  }
}
