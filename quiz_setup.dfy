/**
 * The guards of the QuizSetup component: the default question count offered when a pool is
 * loaded, the chain of checks "Start Quiz" runs before it starts a quiz, and the conditions
 * under which the form and its button are disabled.
 *
 * The count is the text of an input box. The start handler reads it with `parseInt(text, 10)`,
 * while the button's disabled flag reads it with `parseInt(text)`, which also accepts a
 * hexadecimal "0x" prefix.
 */
module QuizSetup {
  import opened Wrappers
  import opened JsText
  import opened QuizData

  /** The count placed in the input box when the pool size `maxQuestions` changes: ten, or the
      whole pool when it is smaller, and "0" for an empty pool. */
  function DefaultNumQuestions(maxQuestions: nat): (text: string)
    ensures ParseIntDecimal(text) == Some(if maxQuestions > 0 then Min(10, maxQuestions) else 0)
    ensures !HasHexPrefix(SplitSign(text[LeadingSpace(text)..]).1)
  {
    var n := if maxQuestions > 0 then Min(10, maxQuestions) else 0;
    var text := NatToDecimal(n);
    ParseIntOfDecimal(n);
    assert LeadingSpace(text) == 0 by { assert !IsWhitespace(text[0]); }
    assert text[0..] == text;
    text
  }

  function Min(a: int, b: int): int {
    if a <= b then a else b
  }

  /** Why "Start Quiz" refused to start, one reason per toast. */
  datatype SetupError = NoFilesAvailable | NoQuestionsLoaded | InvalidNumber | TooManyQuestions

  datatype StartDecision = Rejected(reason: SetupError) | Start(numQuestions: int, mode: QuizMode)

  /** `handleStart`: the first failing guard wins; when none fails the quiz is started with
      the parsed count and the selected mode. */
  function HandleStart(hasFilesAvailable: bool, hasLoadedQuestions: bool, maxQuestions: nat,
                       numQuestions: string, selectedMode: QuizMode): (d: StartDecision)
    ensures d.Start? <==>
              && hasFilesAvailable && hasLoadedQuestions && maxQuestions > 0
              && ParseIntDecimal(numQuestions).Some?
              && 1 <= ParseIntDecimal(numQuestions).value <= maxQuestions
    ensures d.Start? ==> d.numQuestions == ParseIntDecimal(numQuestions).value && d.mode == selectedMode
    ensures d == Rejected(NoFilesAvailable) <==> !hasFilesAvailable
    ensures d == Rejected(NoQuestionsLoaded) <==>
              hasFilesAvailable && (!hasLoadedQuestions || maxQuestions == 0)
    ensures d == Rejected(InvalidNumber) <==>
              && hasFilesAvailable && hasLoadedQuestions && maxQuestions > 0
              && (ParseIntDecimal(numQuestions).None? || ParseIntDecimal(numQuestions).value <= 0)
  {
    if !hasFilesAvailable then Rejected(NoFilesAvailable)
    else if !hasLoadedQuestions || maxQuestions == 0 then Rejected(NoQuestionsLoaded)
    else
      var num := ParseIntDecimal(numQuestions);
      if num.None? || num.value <= 0 then Rejected(InvalidNumber)
      else if num.value > maxQuestions then Rejected(TooManyQuestions)
      else Start(num.value, selectedMode)
  }

  /** A started quiz asks for between one question and the whole pool. */
  lemma StartIsWithinPool(hasFilesAvailable: bool, hasLoadedQuestions: bool, maxQuestions: nat,
                          numQuestions: string, selectedMode: QuizMode)
    requires HandleStart(hasFilesAvailable, hasLoadedQuestions, maxQuestions, numQuestions, selectedMode).Start?
    ensures var d := HandleStart(hasFilesAvailable, hasLoadedQuestions, maxQuestions, numQuestions, selectedMode);
            1 <= d.numQuestions <= maxQuestions
  {
  }

  /** With files and a loaded pool, the default count starts a quiz of that many questions. */
  lemma DefaultCountStarts(maxQuestions: nat, selectedMode: QuizMode)
    requires maxQuestions > 0
    ensures HandleStart(true, true, maxQuestions, DefaultNumQuestions(maxQuestions), selectedMode)
            == Start(Min(10, maxQuestions), selectedMode)
  {
  }

  /** `isSetupDisabled`: no files, a load in progress, or an empty pool. */
  predicate IsSetupDisabled(hasFilesAvailable: bool, isLoading: bool, hasLoadedQuestions: bool, maxQuestions: nat) {
    !hasFilesAvailable || isLoading || !hasLoadedQuestions || maxQuestions == 0
  }

  /** `isButtonDisabled`: setup is disabled, or the count (read with `parseInt(text)`) is NaN or
      not positive. */
  predicate IsButtonDisabled(hasFilesAvailable: bool, isLoading: bool, hasLoadedQuestions: bool,
                             maxQuestions: nat, numQuestions: string) {
    || IsSetupDisabled(hasFilesAvailable, isLoading, hasLoadedQuestions, maxQuestions)
    || ParseIntAuto(numQuestions).None?
    || ParseIntAuto(numQuestions).value <= 0
  }

  /** The form is enabled exactly when nothing is loading and the default count would start a
      quiz; the default count then also enables the button. */
  lemma SetupEnabledIffDefaultStarts(hasFilesAvailable: bool, isLoading: bool, hasLoadedQuestions: bool,
                                     maxQuestions: nat, selectedMode: QuizMode)
    ensures !IsSetupDisabled(hasFilesAvailable, isLoading, hasLoadedQuestions, maxQuestions) <==>
              && !isLoading
              && HandleStart(hasFilesAvailable, hasLoadedQuestions, maxQuestions,
                             DefaultNumQuestions(maxQuestions), selectedMode).Start?
    ensures !IsSetupDisabled(hasFilesAvailable, isLoading, hasLoadedQuestions, maxQuestions) ==>
              !IsButtonDisabled(hasFilesAvailable, isLoading, hasLoadedQuestions, maxQuestions,
                                DefaultNumQuestions(maxQuestions))
  {
    var text := DefaultNumQuestions(maxQuestions);
    ParseIntAutoIsDecimal(text);
    if maxQuestions > 0 {
      DefaultCountStarts(maxQuestions, selectedMode);
    }
  }

  /** Whenever a quiz can start and nothing is loading, the form is enabled. */
  lemma StartMeansSetupEnabled(hasFilesAvailable: bool, hasLoadedQuestions: bool, maxQuestions: nat,
                               numQuestions: string, selectedMode: QuizMode)
    requires HandleStart(hasFilesAvailable, hasLoadedQuestions, maxQuestions, numQuestions, selectedMode).Start?
    ensures !IsSetupDisabled(hasFilesAvailable, false, hasLoadedQuestions, maxQuestions)
  {
  }

  /** An enabled button with a decimal count can be refused only for asking too many
      questions: the first three guards pass. */
  lemma EnabledButtonPassesFirstGuards(hasFilesAvailable: bool, isLoading: bool, hasLoadedQuestions: bool,
                                       maxQuestions: nat, numQuestions: string, selectedMode: QuizMode)
    requires !IsButtonDisabled(hasFilesAvailable, isLoading, hasLoadedQuestions, maxQuestions, numQuestions)
    requires !HasHexPrefix(SplitSign(numQuestions[LeadingSpace(numQuestions)..]).1)
    ensures var d := HandleStart(hasFilesAvailable, hasLoadedQuestions, maxQuestions, numQuestions, selectedMode);
            d.Start? || d == Rejected(TooManyQuestions)
  {
    ParseIntAutoIsDecimal(numQuestions);
  }

  /** A hexadecimal count such as "0x5" enables the button, since `parseInt("0x5")` is 5, but
      the start handler reads it as 0 and refuses it as an invalid number. The form cannot
      produce this text: its input has type "number", whose value is "" for any text that is
      not a decimal number, so the two `parseInt` calls agree on every value it delivers. */
  lemma HexCountEnablesButtonButIsRefused(maxQuestions: nat, selectedMode: QuizMode)
    requires maxQuestions > 0
    ensures !IsButtonDisabled(true, false, true, maxQuestions, "0x5")
    ensures HandleStart(true, true, maxQuestions, "0x5", selectedMode) == Rejected(InvalidNumber)
  {
    var s := "0x5";
    assert LeadingSpace(s) == 0 by { assert !IsWhitespace(s[0]); }
    assert s[0..] == s;
    assert SplitSign(s) == (false, s);
    assert HexRun(s[2..]) == 1 by { assert s[2..] == "5"; }
    assert DigitRun(s) == 1 by { assert !IsDigit(s[1]); }
    assert s[2..][..1] == "5";
    assert s[..1] == "0";
    assert "0"[..0] == [];
    assert DigitsValue("0") == 0;
    assert ParseIntDecimal(s) == Some(0);
  }
}
