/**
 * The form heuristics of the browser extension's content script (browser-extension/content.js):
 * which field holds the username of a submitted form, whether the form looks like a
 * registration, what the capture message carries, and which fields an autofill writes into.
 * A page is a sequence of input elements in document order; fields are named by their index.
 */
module Capture {
  import opened Wrappers
  import Seqs
  import Text

  /**
   * An input element: its `type`, `name`, `id` and `autocomplete` attributes (None when the
   * attribute is absent), its current value, whether isVisible holds for it, and the index of
   * the form that encloses it, if any.
   */
  datatype Input = Input(
    inputType: Option<string>, name: Option<string>, id: Option<string>, autocomplete: Option<string>,
    value: string, visible: bool, form: Option<nat>)

  datatype Attribute = Type | Name | Id | Autocomplete

  /** One attribute test of a CSS selector: `[a="v"]` or `[a*="v"]`. */
  datatype Cond =
    | Is(attribute: Attribute, text: string)
    | Has(attribute: Attribute, text: string)

  /** `input` followed by attribute tests, all of which must hold. */
  type Selector = seq<Cond>

  function AttributeOf(inp: Input, a: Attribute): Option<string> {
    match a
    case Type => inp.inputType
    case Name => inp.name
    case Id => inp.id
    case Autocomplete => inp.autocomplete
  }

  predicate Holds(c: Cond, inp: Input) {
    match c
    case Is(a, v) => AttributeOf(inp, a) == Some(v)
    case Has(a, v) => AttributeOf(inp, a).Some? && Text.Contains(AttributeOf(inp, a).value, v)
  }

  predicate Matches(sel: Selector, inp: Input) {
    forall k :: 0 <= k < |sel| ==> Holds(sel[k], inp)
  }

  /** `input[type="password"]` */
  predicate IsPassword(inp: Input) { inp.inputType == Some("password") }

  /** `querySelector`: the first input in document order matching the selector. */
  function FirstMatch(inputs: seq<Input>, sel: Selector): Option<nat> {
    Seqs.FirstWhere((inp: Input) => Matches(sel, inp), inputs)
  }

  /** The first password input, as `querySelector('input[type="password"]')` finds it. */
  function FirstPassword(inputs: seq<Input>): (r: Option<nat>)
    ensures r.None? <==> forall i :: 0 <= i < |inputs| ==> !IsPassword(inputs[i])
    ensures r.Some? ==> r.value < |inputs| && IsPassword(inputs[r.value])
    ensures r.Some? ==> forall j :: 0 <= j < r.value ==> !IsPassword(inputs[j])
  {
    Seqs.FirstWhere(IsPassword, inputs)
  }

  /**
   * The indices below `n` of the inputs satisfying `p`, in increasing order:
   * `Array.from(querySelectorAll(...)).filter(...)`.
   */
  function Indices(inputs: seq<Input>, p: Input -> bool, n: nat): (r: seq<nat>)
    requires n <= |inputs|
    ensures forall k :: 0 <= k < |r| ==> r[k] < n && p(inputs[r[k]])
    ensures forall i :: 0 <= i < n && p(inputs[i]) ==> i in r
    ensures forall a, b :: 0 <= a < b < |r| ==> r[a] < r[b]
  {
    if n == 0 then []
    else Indices(inputs, p, n - 1) + (if p(inputs[n - 1]) then [n - 1] else [])
  }

  // ---------------------------------------------------------------------------
  // Credential capture on form submission

  /** findUsernameField's selectors, highest priority first. */
  const CaptureSelectors: seq<Selector> := [
    [Is(Type, "email")],
    [Is(Name, "email")],
    [Is(Name, "username")],
    [Is(Name, "login")],
    [Is(Name, "user")],
    [Is(Autocomplete, "username")],
    [Is(Autocomplete, "email")],
    [Is(Type, "text")]
  ]

  /** A candidate the rule takes: a field with a value that is not the form's first password input. */
  predicate Accepts(inputs: seq<Input>, f: Option<nat>) {
    f.Some? && f.value < |inputs| && inputs[f.value].value != "" && f != FirstPassword(inputs)
  }

  /**
   * The username rule over a list of selectors: only the first field each selector matches
   * is considered, and the first selector whose field is acceptable wins.
   */
  function UsernameFieldFrom(inputs: seq<Input>, sels: seq<Selector>): (r: Option<nat>)
    ensures r.Some? ==> Accepts(inputs, r)
    decreases |sels|
  {
    if sels == [] then None
    else
      var f := FirstMatch(inputs, sels[0]);
      if Accepts(inputs, f) then f else UsernameFieldFrom(inputs, sels[1..])
  }

  /** Selector `k` is the first whose field is acceptable. */
  predicate FirstAcceptable(inputs: seq<Input>, sels: seq<Selector>, k: int) {
    && 0 <= k < |sels|
    && Accepts(inputs, FirstMatch(inputs, sels[k]))
    && forall k' :: 0 <= k' < k ==> !Accepts(inputs, FirstMatch(inputs, sels[k']))
  }

  /**
   * The rule returns the field of the first selector that yields an acceptable one, and None
   * exactly when no selector does.
   */
  lemma {:induction false} UsernameFieldSpec(inputs: seq<Input>, sels: seq<Selector>)
    ensures var r := UsernameFieldFrom(inputs, sels);
      && (r.None? <==> forall k :: 0 <= k < |sels| ==> !Accepts(inputs, FirstMatch(inputs, sels[k])))
      && (forall k :: FirstAcceptable(inputs, sels, k) ==> r == FirstMatch(inputs, sels[k]))
    decreases |sels|
  {
    if sels != [] {
      UsernameFieldSpec(inputs, sels[1..]);
      var f := FirstMatch(inputs, sels[0]);
      assert forall k :: 1 <= k < |sels| ==> sels[k] == sels[1..][k - 1];
      if !Accepts(inputs, f) {
        forall k | FirstAcceptable(inputs, sels, k) ensures FirstAcceptable(inputs, sels[1..], k - 1) {
          assert k != 0;
          forall k' | 0 <= k' < k - 1 ensures !Accepts(inputs, FirstMatch(inputs, sels[1..][k'])) {
            assert sels[1..][k'] == sels[k' + 1];
          }
        }
      }
    }
  }

  lemma UsernameFieldStep(inputs: seq<Input>, sels: seq<Selector>, k: int)
    requires 0 <= k < |sels|
    ensures UsernameFieldFrom(inputs, sels[k..]) ==
      if Accepts(inputs, FirstMatch(inputs, sels[k])) then FirstMatch(inputs, sels[k]) else UsernameFieldFrom(inputs, sels[k + 1..])
  {
    Seqs.DropOne(sels, k);
  }

  /**
   * findUsernameField: the selectors tried in priority order, returning the first acceptable
   * field and None when there is none.
   */
  method FindUsernameField(inputs: seq<Input>) returns (field: Option<nat>)
    ensures field == UsernameFieldFrom(inputs, CaptureSelectors)
  {
    for k := 0 to |CaptureSelectors|
      invariant UsernameFieldFrom(inputs, CaptureSelectors[k..]) == UsernameFieldFrom(inputs, CaptureSelectors)
    {
      UsernameFieldStep(inputs, CaptureSelectors, k);
      var candidate := FirstMatch(inputs, CaptureSelectors[k]);
      if Accepts(inputs, candidate) {
        return candidate;
      }
    }
    return None;
  }

  /** The username field findUsernameField picks. */
  function UsernameField(inputs: seq<Input>): Option<nat> {
    UsernameFieldFrom(inputs, CaptureSelectors)
  }

  /** A login form with two e-mail inputs, the first of them empty. */
  const TwoEmailForm: seq<Input> := [
    Input(Some("email"), None, None, None, "", true, Some(0)),
    Input(Some("email"), None, None, None, "a@example.org", true, Some(0)),
    Input(Some("text"), Some("username"), None, None, "bob", true, Some(0)),
    Input(Some("password"), None, None, None, "secret", true, Some(0))]

  lemma PasswordIsLastField()
    ensures FirstPassword(TwoEmailForm) == Some(3)
  {
    var f := TwoEmailForm;
    assert IsPassword(f[3]) && !IsPassword(f[0]) && !IsPassword(f[1]) && !IsPassword(f[2]);
  }

  lemma EmailTypeMatchesFirstField()
    ensures FirstMatch(TwoEmailForm, CaptureSelectors[0]) == Some(0)
  {
    assert Matches(CaptureSelectors[0], TwoEmailForm[0]);
  }

  lemma NoFieldNamedEmail()
    ensures FirstMatch(TwoEmailForm, CaptureSelectors[1]) == None
  {
    var f := TwoEmailForm;
    forall i | 0 <= i < 4 ensures !Matches(CaptureSelectors[1], f[i]) {
      assert !Holds(CaptureSelectors[1][0], f[i]);
    }
  }

  lemma UsernameNameMatchesThirdField()
    ensures FirstMatch(TwoEmailForm, CaptureSelectors[2]) == Some(2)
  {
    var f := TwoEmailForm;
    assert Matches(CaptureSelectors[2], f[2]);
    assert !Holds(CaptureSelectors[2][0], f[0]) && !Holds(CaptureSelectors[2][0], f[1]);
  }

  /**
   * Only the first field of a selector counts: an empty first e-mail field makes the rule move
   * on to the next selector although a second e-mail field holds a value.
   */
  lemma EmptyFirstEmailFieldFallsThrough()
    ensures UsernameField(TwoEmailForm) == Some(2)
  {
    EmailTypeMatchesFirstField();
    NoFieldNamedEmail();
    UsernameNameMatchesThirdField();
    PasswordIsLastField();
    assert CaptureSelectors[0..] == CaptureSelectors;
    UsernameFieldStep(TwoEmailForm, CaptureSelectors, 0);
    UsernameFieldStep(TwoEmailForm, CaptureSelectors, 1);
    UsernameFieldStep(TwoEmailForm, CaptureSelectors, 2);
  }

  /** The registration keywords looked for in the form's lower-cased HTML. */
  const RegistrationKeywords: seq<string> :=
    ["register", "signup", "sign up", "create account", "registrieren", "anmelden", "erstellen"]

  /** A submitted form: its inputs in document order and its outer HTML. */
  datatype Form = Form(inputs: seq<Input>, html: string)

  predicate HasKeyword(html: string) {
    exists k :: 0 <= k < |RegistrationKeywords| && Text.Contains(Text.ToLower(html), RegistrationKeywords[k])
  }

  /** detectRegistrationForm: more than one password input, or a keyword in the HTML. */
  predicate DetectRegistrationForm(form: Form) {
    |Seqs.Filter(IsPassword, form.inputs)| > 1 || HasKeyword(form.html)
  }

  /** Two password inputs make a registration form, whatever the HTML says. */
  lemma TwoPasswordsMeanRegistration(form: Form, i: nat, j: nat)
    requires i < j < |form.inputs| && IsPassword(form.inputs[i]) && IsPassword(form.inputs[j])
    ensures DetectRegistrationForm(form)
  {
    Seqs.FilterTwo(IsPassword, form.inputs, i, j);
  }

  /** With at most one password input the verdict rests on the keywords alone. */
  lemma OnePasswordNeedsKeyword(form: Form, i: nat)
    requires i < |form.inputs|
    requires forall j :: 0 <= j < |form.inputs| && j != i ==> !IsPassword(form.inputs[j])
    ensures DetectRegistrationForm(form) <==> HasKeyword(form.html)
  {
    if IsPassword(form.inputs[i]) {
      Seqs.FilterOne(IsPassword, form.inputs, i);
    } else {
      Seqs.FilterNone(IsPassword, form.inputs);
    }
  }

  /** The keyword test ignores the case of the HTML. */
  lemma RegistrationIgnoresCase(form: Form)
    ensures DetectRegistrationForm(form) == DetectRegistrationForm(form.(html := Text.ToLower(form.html)))
  {
    Text.ToLowerIdempotent(form.html);
  }

  /** A German login form whose button reads "Anmelden" counts as a new account. */
  lemma AnmeldenCountsAsRegistration(inputs: seq<Input>)
    ensures DetectRegistrationForm(Form(inputs, "<button>Anmelden</button>"))
  {
    var lower := Text.ToLower("<button>Anmelden</button>");
    assert lower == "<button>anmelden</button>";
    assert Text.OccursAt(lower, RegistrationKeywords[5], 8);
  }

  datatype Credentials = Credentials(url: string, hostname: string, username: string, password: string, title: string)

  /** The 'credentialsCaptured' message sent to the background script. */
  datatype Captured = Captured(credentials: Credentials, isNewAccount: bool)

  /** checkForCredentials, with the page's address, hostname and title as parameters. */
  function CheckForCredentials(form: Form, href: string, hostname: string, docTitle: string): Option<Captured> {
    var pw := FirstPassword(form.inputs);
    if pw.None? || form.inputs[pw.value].value == "" then None
    else
      var user := UsernameField(form.inputs);
      if user.None? || form.inputs[user.value].value == "" then None
      else
        var title := if docTitle != "" then docTitle else hostname;
        Some(Captured(
          Credentials(href, hostname, form.inputs[user.value].value, form.inputs[pw.value].value, title),
          DetectRegistrationForm(form)))
  }

  /**
   * Nothing is sent unless the form has a password input with a value and an acceptable
   * username field; otherwise the message carries both values, which come from two different
   * fields, the page's address, the document title or else the hostname, and the
   * registration verdict.
   */
  lemma CheckForCredentialsSpec(form: Form, href: string, hostname: string, docTitle: string)
    ensures var r := CheckForCredentials(form, href, hostname, docTitle);
      var pw := FirstPassword(form.inputs);
      var user := UsernameField(form.inputs);
      && (r.None? <==> pw.None? || form.inputs[pw.value].value == "" || user.None?)
      && (r.Some? ==>
            && user.Some? && user.value < |form.inputs| && user != pw
            && r.value.credentials == Credentials(href, hostname, form.inputs[user.value].value,
                 form.inputs[pw.value].value, if docTitle == "" then hostname else docTitle)
            && r.value.credentials.username != "" && r.value.credentials.password != ""
            && r.value.isNewAccount == DetectRegistrationForm(form))
  {
    UsernameFieldSpec(form.inputs, CaptureSelectors);
  }

  // ---------------------------------------------------------------------------
  // Autofill

  /** findUsernameFields' selectors, highest priority first. */
  const FillSelectors: seq<Selector> := [
    [Is(Type, "email")],
    [Is(Type, "text"), Has(Name, "user")],
    [Is(Type, "text"), Has(Name, "email")],
    [Is(Type, "text"), Has(Name, "login")],
    [Is(Type, "text"), Has(Id, "user")],
    [Is(Type, "text"), Has(Id, "email")],
    [Is(Type, "text"), Has(Id, "login")],
    [Is(Type, "text"), Is(Autocomplete, "username")],
    [Is(Type, "text"), Is(Autocomplete, "email")],
    [Is(Name, "username")],
    [Is(Name, "email")],
    [Is(Name, "login")],
    [Is(Id, "username")],
    [Is(Id, "email")],
    [Is(Id, "login")]
  ]

  /** The visible inputs a selector matches, in document order. */
  function VisibleMatches(inputs: seq<Input>, sel: Selector): seq<nat> {
    Indices(inputs, (inp: Input) => Matches(sel, inp) && inp.visible, |inputs|)
  }

  /** A visible text or e-mail input of form `f`. */
  predicate FallbackCandidate(inp: Input, f: nat) {
    inp.form == Some(f) && (inp.inputType == Some("text") || inp.inputType == Some("email")) && inp.visible
  }

  /** The fallback: the visible text and e-mail inputs of the first password input's form. */
  function Fallback(inputs: seq<Input>): (r: seq<nat>)
    ensures forall k :: 0 <= k < |r| ==>
      (&& r[k] < |inputs| && FirstPassword(inputs).Some?
       && inputs[FirstPassword(inputs).value].form.Some?
       && FallbackCandidate(inputs[r[k]], inputs[FirstPassword(inputs).value].form.value))
    ensures FirstPassword(inputs).None? ==> r == []
    ensures FirstPassword(inputs).Some? && inputs[FirstPassword(inputs).value].form.None? ==> r == []
    ensures FirstPassword(inputs).Some? && inputs[FirstPassword(inputs).value].form.Some? ==>
      forall i :: 0 <= i < |inputs| && FallbackCandidate(inputs[i], inputs[FirstPassword(inputs).value].form.value) ==> i in r
    ensures forall a, b :: 0 <= a < b < |r| ==> r[a] < r[b]
  {
    match FirstPassword(inputs)
    case None => []
    case Some(p) =>
      match inputs[p].form
      case None => []
      case Some(f) => Indices(inputs, (inp: Input) => FallbackCandidate(inp, f), |inputs|)
  }

  /**
   * findUsernameFields over a list of selectors: the visible matches of the first selector
   * that has any, else the fallback.
   */
  function UsernameFieldsFrom(inputs: seq<Input>, sels: seq<Selector>): seq<nat>
    decreases |sels|
  {
    if sels == [] then Fallback(inputs)
    else
      var v := VisibleMatches(inputs, sels[0]);
      if |v| > 0 then v else UsernameFieldsFrom(inputs, sels[1..])
  }

  /** Selector `k` is the first with a visible match. */
  predicate FirstVisible(inputs: seq<Input>, sels: seq<Selector>, k: int) {
    && 0 <= k < |sels|
    && VisibleMatches(inputs, sels[k]) != []
    && forall k' :: 0 <= k' < k ==> VisibleMatches(inputs, sels[k']) == []
  }

  /**
   * The fields found are visible inputs; they are the visible matches of the first selector
   * that has any, and the fallback when no selector has one.
   */
  lemma {:induction false} UsernameFieldsSpec(inputs: seq<Input>, sels: seq<Selector>)
    ensures var r := UsernameFieldsFrom(inputs, sels);
      && (forall k :: 0 <= k < |r| ==> r[k] < |inputs| && inputs[r[k]].visible)
      && ((forall k :: 0 <= k < |sels| ==> VisibleMatches(inputs, sels[k]) == []) ==> r == Fallback(inputs))
      && (forall k :: FirstVisible(inputs, sels, k) ==> r == VisibleMatches(inputs, sels[k]))
    decreases |sels|
  {
    if sels != [] {
      UsernameFieldsSpec(inputs, sels[1..]);
      assert forall k :: 1 <= k < |sels| ==> sels[k] == sels[1..][k - 1];
      if VisibleMatches(inputs, sels[0]) == [] {
        forall k | FirstVisible(inputs, sels, k) ensures FirstVisible(inputs, sels[1..], k - 1) {
          assert k != 0;
          forall k' | 0 <= k' < k - 1 ensures VisibleMatches(inputs, sels[1..][k']) == [] {
            assert sels[1..][k'] == sels[k' + 1];
          }
        }
      }
    }
  }

  lemma UsernameFieldsStep(inputs: seq<Input>, sels: seq<Selector>, k: int)
    requires 0 <= k < |sels|
    ensures UsernameFieldsFrom(inputs, sels[k..]) ==
      if |VisibleMatches(inputs, sels[k])| > 0 then VisibleMatches(inputs, sels[k]) else UsernameFieldsFrom(inputs, sels[k + 1..])
  {
    Seqs.DropOne(sels, k);
  }

  /** findUsernameFields: the selectors tried in order, then the fallback. */
  method FindUsernameFields(inputs: seq<Input>) returns (fields: seq<nat>)
    ensures fields == UsernameFieldsFrom(inputs, FillSelectors)
  {
    for k := 0 to |FillSelectors|
      invariant UsernameFieldsFrom(inputs, FillSelectors[k..]) == UsernameFieldsFrom(inputs, FillSelectors)
    {
      UsernameFieldsStep(inputs, FillSelectors, k);
      var visible := VisibleMatches(inputs, FillSelectors[k]);
      if |visible| > 0 {
        return visible;
      }
    }
    return Fallback(inputs);
  }

  /** findPasswordFields: the visible password inputs. */
  function PasswordFields(inputs: seq<Input>): seq<nat> {
    Indices(inputs, (inp: Input) => IsPassword(inp) && inp.visible, |inputs|)
  }

  /** The fields an autofill writes into; None where it leaves the page alone. */
  datatype Fill = Fill(user: Option<nat>, pass: Option<nat>)

  /** fillCredentials: the first username field and the first visible password field, when values are given. */
  function FillCredentials(inputs: seq<Input>, username: string, password: string): Fill {
    var users := UsernameFieldsFrom(inputs, FillSelectors);
    var passes := PasswordFields(inputs);
    Fill(
      if |users| > 0 && username != "" then Some(users[0]) else None,
      if |passes| > 0 && password != "" then Some(passes[0]) else None)
  }

  /** The first visible password input: every earlier password input is hidden. */
  lemma PasswordFieldsSpec(inputs: seq<Input>)
    ensures var passes := PasswordFields(inputs);
      passes != [] ==>
        && passes[0] < |inputs| && IsPassword(inputs[passes[0]]) && inputs[passes[0]].visible
        && forall j :: 0 <= j < passes[0] && IsPassword(inputs[j]) ==> !inputs[j].visible
  {
  }

  /** Every visible password input is among the password fields. */
  lemma PasswordFieldsComplete(inputs: seq<Input>, i: nat)
    requires i < |inputs| && IsPassword(inputs[i]) && inputs[i].visible
    ensures i in PasswordFields(inputs)
  {
  }

  /**
   * An autofill writes the username into the first username field found, and the password
   * into the first visible password input, each only when there is such a field and the value
   * is not empty; every password input before the one written is hidden, and no other field
   * is written.
   */
  lemma FillCredentialsSpec(inputs: seq<Input>, username: string, password: string)
    ensures var r := FillCredentials(inputs, username, password);
      && (r.user.Some? <==> username != "" && UsernameFieldsFrom(inputs, FillSelectors) != [])
      && (r.user.Some? ==>
            && r.user.value == UsernameFieldsFrom(inputs, FillSelectors)[0]
            && r.user.value < |inputs| && inputs[r.user.value].visible)
      && (r.pass.Some? <==> password != "" && exists i :: 0 <= i < |inputs| && IsPassword(inputs[i]) && inputs[i].visible)
      && (r.pass.Some? ==>
            && r.pass.value < |inputs| && IsPassword(inputs[r.pass.value]) && inputs[r.pass.value].visible
            && forall j :: 0 <= j < r.pass.value && IsPassword(inputs[j]) ==> !inputs[j].visible)
  {
    var users := UsernameFieldsFrom(inputs, FillSelectors);
    var passes := PasswordFields(inputs);
    assert users != [] ==> users[0] < |inputs| && inputs[users[0]].visible by {
      UsernameFieldsSpec(inputs, FillSelectors);
    }
    PasswordFieldsSpec(inputs);
    if exists i :: 0 <= i < |inputs| && IsPassword(inputs[i]) && inputs[i].visible {
      var i :| 0 <= i < |inputs| && IsPassword(inputs[i]) && inputs[i].visible;
      PasswordFieldsComplete(inputs, i);
    }
  }
}
