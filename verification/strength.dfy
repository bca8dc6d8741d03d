/**
 * The password-strength rules of the renderer (src/app.js): analyzePasswordStrength, used by
 * the security check, and the score and label bands of updateStrengthIndicator.
 */
module Strength {
  import Text

  const CommonPasswords: seq<string> :=
    ["password", "123456", "qwerty", "abc123", "password1", "admin", "letmein", "welcome"]

  /** /[a-z]/ */
  predicate HasLower(pw: string) { exists i :: 0 <= i < |pw| && Text.IsLower(pw[i]) }
  /** /[A-Z]/ */
  predicate HasUpper(pw: string) { exists i :: 0 <= i < |pw| && Text.IsUpper(pw[i]) }
  /** /[0-9]/ */
  predicate HasDigit(pw: string) { exists i :: 0 <= i < |pw| && Text.IsDigit(pw[i]) }
  /** /[^a-zA-Z0-9]/ */
  predicate HasSymbol(pw: string) { exists i :: 0 <= i < |pw| && !Text.IsAlphaNum(pw[i]) }

  /** /^[a-z]+$|^[A-Z]+$|^[0-9]+$/i: only letters (of either case, because of the i flag), or only digits. */
  predicate SingleClass(pw: string) {
    pw != "" &&
    ((forall i :: 0 <= i < |pw| ==> Text.IsLower(pw[i]) || Text.IsUpper(pw[i])) ||
     (forall i :: 0 <= i < |pw| ==> Text.IsDigit(pw[i])))
  }

  /** The characters JavaScript's `.` does not match. */
  predicate IsLineTerminator(c: char) {
    c == '\n' || c == '\r' || c == '\U{2028}' || c == '\U{2029}'
  }

  /** /(.)\1{2,}/: the same character three times in a row. */
  predicate HasTriple(pw: string) {
    exists i :: 0 <= i && i + 2 < |pw| && pw[i] == pw[i + 1] && pw[i + 1] == pw[i + 2] && !IsLineTerminator(pw[i])
  }

  /** `commonPasswords.includes(password.toLowerCase())` */
  predicate IsCommon(pw: string) { Text.ToLower(pw) in CommonPasswords }

  function Count(b: bool): int { if b then 1 else 0 }

  /** The seven criteria both scorers award a point for. */
  function CriteriaMet(pw: string): (n: int)
    ensures 0 <= n <= 7
  {
    Count(|pw| >= 8) + Count(|pw| >= 12) + Count(|pw| >= 16) +
    Count(HasLower(pw)) + Count(HasUpper(pw)) + Count(HasDigit(pw)) + Count(HasSymbol(pw))
  }

  /** The two pattern penalties of analyzePasswordStrength. */
  function Penalty(pw: string): int {
    2 * Count(SingleClass(pw)) + Count(HasTriple(pw))
  }

  /** The reasons for the criteria a password fails, in the order they are checked. */
  function CriteriaFailures(pw: string): seq<string> {
    (if |pw| < 8 then ["zu kurz"] else []) +
    (if !HasLower(pw) then ["keine Kleinbuchstaben"] else []) +
    (if !HasUpper(pw) then ["keine Großbuchstaben"] else []) +
    (if !HasDigit(pw) then ["keine Zahlen"] else []) +
    (if !HasSymbol(pw) then ["keine Sonderzeichen"] else [])
  }

  /** The reasons analyzePasswordStrength collects, in the order it checks them. */
  function Failures(pw: string): seq<string> {
    CriteriaFailures(pw) +
    (if SingleClass(pw) then ["nur ein Zeichentyp"] else []) +
    (if HasTriple(pw) then ["wiederholte Zeichen"] else [])
  }

  /** `Math.max(lo, Math.min(hi, x))` */
  function Clamp(x: int, lo: int, hi: int): (r: int)
    requires lo <= hi
    ensures lo <= r <= hi
    ensures lo <= x <= hi ==> r == x
  {
    if x < lo then lo else if x > hi then hi else x
  }

  datatype Assessment = Assessment(score: int, reason: string)

  /**
   * What analyzePasswordStrength returns. The score is always in 0..7; the empty password
   * and the common passwords get 0 with their own reason; the reason is 'Stark' exactly when
   * no criterion failed and no penalty fired, and otherwise lists the failures in check order.
   */
  function Assess(pw: string): (a: Assessment)
    ensures 0 <= a.score <= 7
    ensures pw == "" ==> a == Assessment(0, "Kein Passwort")
    ensures pw != "" && IsCommon(pw) ==> a == Assessment(0, "sehr häufiges Passwort")
    ensures a.reason == "Stark" <==> pw != "" && !IsCommon(pw) && Failures(pw) == []
    ensures pw != "" && !IsCommon(pw) && Failures(pw) != [] ==> a.reason == Text.Join(Failures(pw), ", ")
  {
    if pw == "" then Assessment(0, "Kein Passwort")
    else if IsCommon(pw) then Assessment(0, "sehr häufiges Passwort")
    else
      FailuresStartLowercase(pw);
      Assessment(
        Clamp(CriteriaMet(pw) - Penalty(pw), 0, 7),
        if Failures(pw) == [] then "Stark" else Text.Join(Failures(pw), ", "))
  }

  /** Every failure text starts with a lower-case letter, so a list of them never joins to 'Stark'. */
  lemma FailuresStartLowercase(pw: string)
    ensures Failures(pw) != [] ==> Failures(pw)[0] != [] && Text.IsLower(Failures(pw)[0][0])
    ensures Failures(pw) != [] ==> Text.Join(Failures(pw), ", ") != "Stark"
  {
    var f := Failures(pw);
    if f != [] {
      assert f[0] in ["zu kurz", "keine Kleinbuchstaben", "keine Großbuchstaben", "keine Zahlen",
                      "keine Sonderzeichen", "nur ein Zeichentyp", "wiederholte Zeichen"];
      assert Text.IsLower(f[0][0]);
      assert "Stark"[0] == 'S';
    }
  }

  /** A password whose reason is 'Stark' scores at least 5, so the security check counts it strong. */
  lemma {:induction false} StarkMeansStrong(pw: string)
    requires Assess(pw).reason == "Stark"
    ensures Assess(pw).score >= 5
  {
    var f := Failures(pw);
    assert f == [];
    assert |pw| >= 8 && HasLower(pw) && HasUpper(pw) && HasDigit(pw) && HasSymbol(pw);
    assert !SingleClass(pw) && !HasTriple(pw);
  }

  /**
   * The indicator never shows less than the analysis: the analysis scores the same criteria
   * and then only subtracts penalties, and the two agree when no penalty fires.
   */
  lemma AnalysisBelowIndicator(pw: string)
    ensures Assess(pw).score <= CriteriaMet(pw)
    ensures pw != "" && !IsCommon(pw) && Penalty(pw) == 0 ==> Assess(pw).score == CriteriaMet(pw)
  {
  }

  /**
   * The criteria checks of analyzePasswordStrength, step by step: a point for each criterion
   * met and a reason for each one failed.
   */
  method CheckCriteria(password: string) returns (score: int, reasons: seq<string>)
    ensures score == CriteriaMet(password)
    ensures reasons == CriteriaFailures(password)
  {
    score := 0;
    reasons := [];
    if |password| >= 8 { score := score + 1; } else { reasons := reasons + ["zu kurz"]; }
    if |password| >= 12 { score := score + 1; }
    if |password| >= 16 { score := score + 1; }
    assert reasons == (if |password| < 8 then ["zu kurz"] else []);
    ghost var upTo := reasons;
    if HasLower(password) { score := score + 1; } else { reasons := reasons + ["keine Kleinbuchstaben"]; }
    assert reasons == upTo + (if !HasLower(password) then ["keine Kleinbuchstaben"] else []);
    upTo := reasons;
    if HasUpper(password) { score := score + 1; } else { reasons := reasons + ["keine Großbuchstaben"]; }
    assert reasons == upTo + (if !HasUpper(password) then ["keine Großbuchstaben"] else []);
    upTo := reasons;
    if HasDigit(password) { score := score + 1; } else { reasons := reasons + ["keine Zahlen"]; }
    assert reasons == upTo + (if !HasDigit(password) then ["keine Zahlen"] else []);
    upTo := reasons;
    if HasSymbol(password) { score := score + 1; } else { reasons := reasons + ["keine Sonderzeichen"]; }
    assert reasons == upTo + (if !HasSymbol(password) then ["keine Sonderzeichen"] else []);
  }

  /** The pattern checks that follow: each pattern found costs points and adds its reason. */
  method CheckPatterns(password: string, score0: int, reasons0: seq<string>) returns (score: int, reasons: seq<string>)
    ensures score == score0 - Penalty(password)
    ensures reasons == reasons0 + (if SingleClass(password) then ["nur ein Zeichentyp"] else [])
      + (if HasTriple(password) then ["wiederholte Zeichen"] else [])
  {
    score, reasons := score0, reasons0;
    if SingleClass(password) {
      score := score - 2;
      reasons := reasons + ["nur ein Zeichentyp"];
    }
    assert reasons == reasons0 + (if SingleClass(password) then ["nur ein Zeichentyp"] else []);
    if HasTriple(password) {
      score := score - 1;
      reasons := reasons + ["wiederholte Zeichen"];
    }
  }

  /**
   * analyzePasswordStrength: nothing to score for the empty password; otherwise the criteria
   * and penalties, a reset for common passwords, the clamp to 0..7 and the joined reasons.
   */
  method AnalyzePasswordStrength(password: string) returns (score: int, reason: string)
    ensures Assessment(score, reason) == Assess(password)
  {
    if password == "" {
      return 0, "Kein Passwort";
    }
    var reasons;
    score, reasons := CheckCriteria(password);
    score, reasons := CheckPatterns(password, score, reasons);

    // Common passwords check
    if IsCommon(password) {
      score := 0;
      reasons := ["sehr häufiges Passwort"];
    }

    score := Clamp(score, 0, 7);
    reason := if |reasons| > 0 then Text.Join(reasons, ", ") else "Stark";
  }

  /** The label updateStrengthIndicator shows for a score. */
  function Label(strength: int): string {
    if strength <= 2 then "Schwach"
    else if strength <= 4 then "Mittel"
    else if strength <= 5 then "Stark"
    else "Sehr stark"
  }

  /**
   * updateStrengthIndicator's computation: one point for each of seven independent criteria,
   * so 0..7, and the label bands 0-2 Schwach, 3-4 Mittel, 5 Stark, 6-7 Sehr stark.
   */
  method StrengthIndicator(password: string) returns (strength: int, caption: string)
    ensures strength == CriteriaMet(password) && 0 <= strength <= 7
    ensures caption == "Schwach" <==> strength <= 2
    ensures caption == "Mittel" <==> 3 <= strength <= 4
    ensures caption == "Stark" <==> strength == 5
    ensures caption == "Sehr stark" <==> strength >= 6
  {
    strength := 0;
    if |password| >= 8 { strength := strength + 1; }
    if |password| >= 12 { strength := strength + 1; }
    if |password| >= 16 { strength := strength + 1; }
    if HasLower(password) { strength := strength + 1; }
    if HasUpper(password) { strength := strength + 1; }
    if HasDigit(password) { strength := strength + 1; }
    if HasSymbol(password) { strength := strength + 1; }
    caption := Label(strength);
  }
}
