/**
 * The credentials screen: the email must end with the studio's domain, the
 * portfolio address must mention the font, and submitting checks both fields,
 * sets or clears each field's error, and completes step 5 when both pass.
 */
module InputHell {
  import CaptchaContext

  const EmailSuffix: string := "@dribbble.io"
  const PortfolioNeedle: string := "comic-sans"
  const EmailMessage: string := "Email must end with @dribbble.io"
  const PortfolioMessage: string := "URL must contain 'comic-sans'"

  /** `s.endsWith(suffix)`. */
  predicate EndsWith(s: string, suffix: string) {
    |suffix| <= |s| && s[|s| - |suffix|..] == suffix
  }

  /** The needle occurs in `s` starting at position `i`. */
  predicate OccursAt(s: string, needle: string, i: int) {
    0 <= i && i + |needle| <= |s| && s[i..i + |needle|] == needle
  }

  /** `s.includes(needle)`: the needle occurs at some position of `s`. */
  predicate Includes(s: string, needle: string) {
    exists i :: 0 <= i <= |s| - |needle| && OccursAt(s, needle, i)
  }

  /** Lower-casing of one character, for the ASCII letters. */
  function LowerChar(c: char): (r: char)
    ensures 'A' <= c <= 'Z' ==> r as int == c as int + 32
    ensures !('A' <= c <= 'Z') ==> r == c
  {
    if 'A' <= c <= 'Z' then (c as int + 32) as char else c
  }

  /** `s.toLowerCase()`, restricted to ASCII letters. */
  function ToLower(s: string): (r: string)
    ensures |r| == |s|
    ensures forall i :: 0 <= i < |s| ==> r[i] == LowerChar(s[i])
  {
    seq(|s|, i requires 0 <= i < |s| => LowerChar(s[i]))
  }

  /** The email check. */
  predicate EmailValid(email: string) {
    EndsWith(email, EmailSuffix)
  }

  /** The portfolio check. */
  predicate PortfolioValid(portfolio: string) {
    Includes(ToLower(portfolio), PortfolioNeedle)
  }

  /** An email passes exactly when it is some text followed by the domain. */
  lemma EmailValidIff(email: string)
    ensures EmailValid(email) <==> exists local :: email == local + EmailSuffix
  {
    if EmailValid(email) {
      assert email == email[..|email| - |EmailSuffix|] + EmailSuffix;
    }
    if exists local :: email == local + EmailSuffix {
      var local :| email == local + EmailSuffix;
      assert email[|email| - |EmailSuffix|..] == EmailSuffix;
    }
  }

  /** The email check is case-sensitive: the domain in capitals fails. */
  lemma EmailIsCaseSensitive()
    ensures EmailValid("me@dribbble.io")
    ensures !EmailValid("me@Dribbble.io")
  {
    assert "me@dribbble.io"[2..] == EmailSuffix;
    assert "me@Dribbble.io"[2..][1] != EmailSuffix[1];
  }

  /** Lower-casing twice is lower-casing once. */
  lemma ToLowerIdempotent(s: string)
    ensures ToLower(ToLower(s)) == ToLower(s)
  {
  }

  /** The portfolio check ignores case: a text passes exactly when its lower-case form does. */
  lemma PortfolioIgnoresCase(portfolio: string)
    ensures PortfolioValid(portfolio) <==> PortfolioValid(ToLower(portfolio))
  {
    ToLowerIdempotent(portfolio);
  }

  /** Any address that contains the needle, in any mix of cases, passes. */
  lemma {:induction false} PortfolioWithNeedlePasses(before: string, word: string, after: string)
    requires ToLower(word) == PortfolioNeedle
    ensures PortfolioValid(before + word + after)
  {
    var s := before + word + after;
    var lower := ToLower(s);
    var i := |before|;
    assert lower[i..i + |PortfolioNeedle|] == ToLower(word) by {
      forall j | 0 <= j < |word|
        ensures lower[i + j] == ToLower(word)[j]
      {
        assert s[i + j] == word[j];
      }
    }
    assert OccursAt(lower, PortfolioNeedle, i);
  }

  /** A mixed-case spelling of the font passes: "https://Comic-Sans.design" is accepted. */
  lemma CapitalisedNeedlePasses()
    ensures PortfolioValid("https://Comic-Sans.design")
  {
    var s := "https://Comic-Sans.design";
    var lower := ToLower(s);
    assert lower[8..18] == PortfolioNeedle by {
      forall j | 0 <= j < 10
        ensures lower[8 + j] == PortfolioNeedle[j]
      {
        assert lower[8 + j] == LowerChar(s[8 + j]);
      }
    }
    assert OccursAt(lower, PortfolioNeedle, 8);
  }

  /** The form's fields and the two error messages shown under them. */
  class CredentialsForm {
    var email: string
    var portfolio: string
    var emailError: string
    var portfolioError: string

    constructor ()
      ensures email == "" && portfolio == "" && emailError == "" && portfolioError == ""
    {
      email := "";
      portfolio := "";
      emailError := "";
      portfolioError := "";
    }

    /** The email input's change handler. */
    method SetEmail(value: string)
      modifies this`email
      ensures email == value
    {
      email := value;
    }

    /** The portfolio input's change handler. */
    method SetPortfolio(value: string)
      modifies this`portfolio
      ensures portfolio == value
    {
      portfolio := value;
    }

    /**
     * The submit handler: checks both fields, each independently of the other,
     * gives each failing field its message and clears the error of each passing
     * one; when both pass it completes step 5 and reports completion.
     */
    method ValidateForm(completedSteps: seq<int>) returns (completed: bool, steps: seq<int>)
      modifies this`emailError, this`portfolioError
      ensures completed <==> EmailValid(email) && PortfolioValid(portfolio)
      ensures emailError == if EmailValid(email) then "" else EmailMessage
      ensures portfolioError == if PortfolioValid(portfolio) then "" else PortfolioMessage
      ensures steps == if completed then CaptchaContext.CompleteStep(completedSteps, 5) else completedSteps
    {
      var isValid := true;
      if !EndsWith(email, EmailSuffix) {
        emailError := EmailMessage;
        isValid := false;
      } else {
        emailError := "";
      }
      if !Includes(ToLower(portfolio), PortfolioNeedle) {
        portfolioError := PortfolioMessage;
        isValid := false;
      } else {
        portfolioError := "";
      }
      steps := completedSteps;
      if isValid {
        steps := CaptchaContext.CompleteStep(steps, 5);
      }
      completed := isValid;
    }
  }

  /**
   * A submit completes step 5 exactly when both checks pass, and reaches the
   * other steps never.
   */
  lemma SubmitCompletesStepFive(email: string, portfolio: string, completedSteps: seq<int>)
    ensures var steps := if EmailValid(email) && PortfolioValid(portfolio)
                         then CaptchaContext.CompleteStep(completedSteps, 5) else completedSteps;
            (CaptchaContext.IsStepCompleted(steps, 5) <==>
               CaptchaContext.IsStepCompleted(completedSteps, 5) || (EmailValid(email) && PortfolioValid(portfolio))) &&
            forall step :: step != 5 ==>
              (CaptchaContext.IsStepCompleted(steps, step) <==> CaptchaContext.IsStepCompleted(completedSteps, step))
  {
  }
}
