/** The generate-password handler of main.js: a charset from four flags, random bytes mapped into it. */
module Generator {
  import Text

  const Uppercase := "ABCDEFGHIJKLMNOPQRSTUVWXYZ"
  const Lowercase := "abcdefghijklmnopqrstuvwxyz"
  const Numbers := "0123456789"
  const Symbols := "!@#$%^&*()_+-=[]{}|;:,.<>?"
  /** Used when no flag is set: the letters a-z, A-Z and the digits, in that order. */
  const Alphanumerics := Lowercase + Uppercase + Numbers

  type Byte = b: int | 0 <= b < 256

  datatype Options = Options(length: nat, uppercase: bool, lowercase: bool, numbers: bool, symbols: bool)

  predicate AnyClass(o: Options) {
    o.uppercase || o.lowercase || o.numbers || o.symbols
  }

  /** The enabled classes in the order upper, lower, digits, symbols. */
  function Classes(o: Options): string {
    (if o.uppercase then Uppercase else "") +
    (if o.lowercase then Lowercase else "") +
    (if o.numbers then Numbers else "") +
    (if o.symbols then Symbols else "")
  }

  /** The charset the handler builds: the enabled classes, or the letters and digits when there are none. */
  function Charset(o: Options): string {
    if Classes(o) == "" then Alphanumerics else Classes(o)
  }

  /** A character the options allow: one of an enabled class, or any ASCII letter or digit when none is enabled. */
  predicate Permitted(o: Options, ch: char) {
    if !AnyClass(o) then Text.IsAlphaNum(ch)
    else
      || (o.uppercase && Text.IsUpper(ch))
      || (o.lowercase && Text.IsLower(ch))
      || (o.numbers && Text.IsDigit(ch))
      || (o.symbols && ch in Symbols)
  }

  function ClassSizes(o: Options): nat {
    (if o.uppercase then 26 else 0) + (if o.lowercase then 26 else 0) +
    (if o.numbers then 10 else 0) + (if o.symbols then 26 else 0)
  }

  /** Every character of `s` is one the options permit. */
  predicate AllPermitted(o: Options, s: string) {
    forall i :: 0 <= i < |s| ==> Permitted(o, s[i])
  }

  lemma AllPermittedConcat(o: Options, s: string, t: string)
    requires AllPermitted(o, s) && AllPermitted(o, t)
    ensures AllPermitted(o, s + t)
  {
    forall i | 0 <= i < |s + t| ensures Permitted(o, (s + t)[i]) {
      if i >= |s| {
        assert (s + t)[i] == t[i - |s|];
      }
    }
  }

  lemma UppercaseLetters()
    ensures forall i :: 0 <= i < |Uppercase| ==> Text.IsUpper(Uppercase[i])
  {
  }

  lemma LowercaseLetters()
    ensures forall i :: 0 <= i < |Lowercase| ==> Text.IsLower(Lowercase[i])
  {
  }

  lemma DigitCharacters()
    ensures forall i :: 0 <= i < |Numbers| ==> Text.IsDigit(Numbers[i])
  {
  }

  lemma SymbolsPermitted(o: Options)
    requires o.symbols
    ensures AllPermitted(o, Symbols)
  {
    forall i | 0 <= i < |Symbols| ensures Permitted(o, Symbols[i]) {
      assert Symbols[i] in Symbols;
    }
  }

  lemma AlphanumericsPermitted(o: Options)
    requires !AnyClass(o)
    ensures AllPermitted(o, Alphanumerics)
  {
    LowercaseLetters();
    UppercaseLetters();
    DigitCharacters();
    AllPermittedConcat(o, Lowercase, Uppercase);
    AllPermittedConcat(o, Lowercase + Uppercase, Numbers);
  }

  /** The charset is never empty, has the size of the enabled classes, and holds only permitted characters. */
  lemma CharsetSpec(o: Options)
    ensures |Charset(o)| == (if !AnyClass(o) then 62 else ClassSizes(o))
    ensures forall i :: 0 <= i < |Charset(o)| ==> Permitted(o, Charset(o)[i])
  {
    var u := if o.uppercase then Uppercase else "";
    var l := if o.lowercase then Lowercase else "";
    var n := if o.numbers then Numbers else "";
    var y := if o.symbols then Symbols else "";
    assert Classes(o) == u + l + n + y;
    UppercaseLetters();
    LowercaseLetters();
    DigitCharacters();
    if o.symbols { SymbolsPermitted(o); }
    AllPermittedConcat(o, u, l);
    AllPermittedConcat(o, u + l, n);
    AllPermittedConcat(o, u + l + n, y);
    if !AnyClass(o) { AlphanumericsPermitted(o); }
    assert AllPermitted(o, Charset(o));
  }

  /** The handler's string appends that build the charset. */
  method BuildCharset(o: Options) returns (charset: string)
    ensures charset == Charset(o)
  {
    charset := "";
    if o.uppercase { charset := charset + Uppercase; }
    assert charset == (if o.uppercase then Uppercase else "");
    if o.lowercase { charset := charset + Lowercase; }
    assert charset == (if o.uppercase then Uppercase else "") + (if o.lowercase then Lowercase else "");
    if o.numbers { charset := charset + Numbers; }
    assert charset == (if o.uppercase then Uppercase else "") + (if o.lowercase then Lowercase else "") + (if o.numbers then Numbers else "");
    if o.symbols { charset := charset + Symbols; }
    assert charset == Classes(o);
    if charset == "" { charset := Alphanumerics; }
  }

  /**
   * generate-password: `random` stands for crypto.randomBytes(length). The result has the
   * requested length, character i is charset[random[i] mod |charset|], and so every
   * character is one the options permit.
   */
  method GeneratePassword(o: Options, random: seq<Byte>) returns (password: string)
    requires |random| == o.length
    ensures |password| == o.length
    ensures forall i :: 0 <= i < o.length ==> password[i] == Charset(o)[random[i] % |Charset(o)|]
    ensures forall i :: 0 <= i < o.length ==> Permitted(o, password[i])
  {
    var charset := BuildCharset(o);
    CharsetSpec(o);

    password := "";
    for i := 0 to o.length
      invariant |password| == i
      invariant forall k :: 0 <= k < i ==> password[k] == charset[random[k] % |charset|]
    {
      password := password + [charset[random[i] % |charset|]];
    }
  }
}
