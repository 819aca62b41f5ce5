/**
 * `cli/create_service.py`: the argument check `_check_name`, whose
 * allowed characters are built from the text of a Python set, and the
 * cookiecutter context `_create_context`.
 */
module CreateService {
  import opened Results

  /** The `n` consecutive characters from code point `first` on. */
  function CharRange(first: nat, n: nat): (r: string)
    requires first + n <= 0xD800
    ensures |r| == n
  {
    seq(n, i requires 0 <= i < n => (first + i) as char)
  }

  lemma CharRangeHolds(first: nat, n: nat, c: char)
    requires first + n <= 0xD800
    ensures c in CharRange(first, n) <==> first <= c as int < first + n
  {
    if first <= c as int < first + n {
      assert CharRange(first, n)[c as int - first] == c;
    }
  }

  /** `string.ascii_letters.lower()` as a set: the 26 lower-case letters (here in alphabetical order). */
  const Letters: string := CharRange('a' as nat, 26)

  /** `string.digits`. */
  const Digits: string := CharRange('0' as nat, 10)

  predicate IsLowerLetter(c: char) { 'a' <= c <= 'z' }
  predicate IsDigit(c: char) { '0' <= c <= '9' }

  /** The items of a set's `str()`: `'a', 'b', 'c'`. */
  function Items(xs: seq<char>): string
    decreases |xs|
  {
    if |xs| == 0 then ""
    else if |xs| == 1 then "'" + [xs[0]] + "'"
    else "'" + [xs[0]] + "', " + Items(xs[1..])
  }

  /** `str(set)` of a set of characters listed as `xs`. */
  function SetRepr(xs: seq<char>): string {
    if |xs| == 0 then "set()" else "{" + Items(xs) + "}"
  }

  /** `allowed_chars`: the text of the letter set, then `_`, then the digits. */
  function AllowedChars(): string {
    SetRepr(Letters) + "_" + Digits
  }

  /** A character of the items is one of the listed characters, a quote, or (with two or more) a comma or space. */
  lemma {:induction false} ItemsChars(xs: seq<char>, c: char)
    requires |xs| > 0
    ensures c in Items(xs) <==> c in xs || c == '\'' || (|xs| > 1 && (c == ',' || c == ' '))
    decreases |xs|
  {
    if |xs| > 1 {
      ItemsChars(xs[1..], c);
      assert Items(xs) == ("'" + [xs[0]] + "', ") + Items(xs[1..]);
      assert c in xs <==> c == xs[0] || c in xs[1..] by {
        assert xs == [xs[0]] + xs[1..];
      }
    } else {
      assert Items(xs) == ['\'', xs[0], '\''];
    }
  }

  /**
   * Which characters `allowed_chars` holds: the lower-case letters, the
   * digits and `_`, but also the braces, quote, comma and space of the set's
   * text.  This does not depend on the order the set prints in.
   */
  lemma AllowedCharsAre(c: char)
    ensures c in AllowedChars() <==>
            IsLowerLetter(c) || IsDigit(c) || c == '_' || c == '{' || c == '}' || c == '\'' || c == ',' || c == ' '
  {
    ItemsChars(Letters, c);
    CharRangeHolds('a' as nat, 26, c);
    CharRangeHolds('0' as nat, 10, c);
    assert AllowedChars() == "{" + Items(Letters) + "}" + "_" + Digits;
  }

  /** Which check rejected the name; both exit with status 1. */
  datatype Reason =
    | DisallowedCharacter  // "Only ascii-letters and numbers are allowed!"
    | LeadingDigit         // "Must not start with number!"

  datatype NameFailure = NameFailure(variableName: string, name: string, reason: Reason, exitCode: int)

  /**
   * `_check_name`: every character must be in `allowed_chars` and none a
   * space; then the name must not start with a digit.  `sys.exit(1)` is the
   * `Err` result.
   */
  function CheckName(name: string, variableName: string): (r: Result<string, NameFailure>)
    ensures r.Ok? ==> r.value == name
    ensures r.Err? ==> r.error.exitCode == 1 && r.error.name == name && r.error.variableName == variableName
  {
    if !(forall i :: 0 <= i < |name| ==> name[i] in AllowedChars()) || ' ' in name then
      Err(NameFailure(variableName, name, DisallowedCharacter, 1))
    else if |name| > 0 && name[0] in Digits then
      Err(NameFailure(variableName, name, LeadingDigit, 1))
    else Ok(name)
  }

  /** The characters a name may consist of, as the check actually lets through. */
  predicate NameChar(c: char) {
    IsLowerLetter(c) || IsDigit(c) || c == '_' || c == '{' || c == '}' || c == '\'' || c == ','
  }

  /** The names the check accepts, stated without the set's text. */
  predicate ValidName(name: string) {
    (forall i :: 0 <= i < |name| ==> NameChar(name[i])) && (|name| == 0 || !IsDigit(name[0]))
  }

  /** The check accepts exactly the valid names, and says why it rejects the others. */
  lemma CheckNameCharacterized(name: string, variableName: string)
    ensures CheckName(name, variableName).Ok? <==> ValidName(name)
    ensures CheckName(name, variableName).Err? ==>
              (CheckName(name, variableName).error.reason == DisallowedCharacter <==>
               exists i :: 0 <= i < |name| && !NameChar(name[i]))
  {
    forall i | 0 <= i < |name| ensures name[i] in AllowedChars() <==> NameChar(name[i]) || name[i] == ' ' {
      AllowedCharsAre(name[i]);
    }
    if |name| > 0 {
      CharRangeHolds('0' as nat, 10, name[0]);
    }
  }

  /** Lower-case letters, digits and `_`, not starting with a digit: accepted and returned unchanged. */
  lemma LowercaseNameAccepted(name: string, variableName: string)
    requires forall i :: 0 <= i < |name| ==> IsLowerLetter(name[i]) || IsDigit(name[i]) || name[i] == '_'
    requires |name| == 0 || !IsDigit(name[0])
    ensures CheckName(name, variableName) == Ok(name)
  {
    CheckNameCharacterized(name, variableName);
  }

  /** A name starting with a digit is rejected with status 1. */
  lemma LeadingDigitRejected(name: string, variableName: string)
    requires |name| > 0 && IsDigit(name[0])
    ensures CheckName(name, variableName).Err? && CheckName(name, variableName).error.exitCode == 1
    ensures (forall i :: 0 <= i < |name| ==> NameChar(name[i])) ==> CheckName(name, variableName).error.reason == LeadingDigit
  {
    CheckNameCharacterized(name, variableName);
  }

  /** A name holding a space, a hyphen or an upper-case letter is rejected by the character check. */
  lemma ForeignCharacterRejected(name: string, variableName: string, i: nat)
    requires i < |name| && (name[i] == ' ' || name[i] == '-' || 'A' <= name[i] <= 'Z')
    ensures CheckName(name, variableName).Err?
    ensures CheckName(name, variableName).error == NameFailure(variableName, name, DisallowedCharacter, 1)
  {
    CheckNameCharacterized(name, variableName);
  }

  /** The text of the set lets braces, quotes and commas through. */
  lemma SetPunctuationAccepted(variableName: string)
    ensures CheckName("{a},'b'", variableName).Ok?
  {
    CheckNameCharacterized("{a},'b'", variableName);
    assert ValidName("{a},'b'");
  }

  /** Examples from the repository's own checks: an accepted name, and two rejected ones. */
  lemma ExampleAccepted()
    ensures CheckName("fastapi_serviceutils", "test") == Ok("fastapi_serviceutils")
  {
    LowercaseNameAccepted("fastapi_serviceutils", "test");
  }

  lemma ExampleLeadingDigit()
    ensures CheckName("1fastapi", "test") == Err(NameFailure("test", "1fastapi", LeadingDigit, 1))
  {
    LeadingDigitRejected("1fastapi", "test");
  }

  lemma ExampleHyphen()
    ensures CheckName("pathlib-2", "test") == Err(NameFailure("test", "pathlib-2", DisallowedCharacter, 1))
  {
    ForeignCharacterRejected("pathlib-2", "test", 7);
  }

  /** The empty name passes both checks. */
  lemma EmptyNameAccepted(variableName: string)
    ensures CheckName("", variableName) == Ok("")
  {
    CheckNameCharacterized("", variableName);
  }

  // ---------------------------------------------------------------------------
  // The cookiecutter context

  /** The parsed command line (`argparse.Namespace`), every argument as its string. */
  datatype Params = Params(
    serviceName: string,
    servicePort: string,
    author: string,
    authorEmail: string,
    endpoint: string,
    outputDir: string)

  const ContextKeys: set<string> := {"service_name", "service_port", "author", "author_email", "endpoint"}

  /** `_create_context`: the five template variables under `cookiecutter`; the output directory is not one of them. */
  function CreateContext(p: Params): (c: map<string, map<string, string>>)
    ensures c.Keys == {"cookiecutter"}
    ensures c["cookiecutter"].Keys == ContextKeys
  {
    map["cookiecutter" := map[
      "service_name" := p.serviceName,
      "service_port" := p.servicePort,
      "author" := p.author,
      "author_email" := p.authorEmail,
      "endpoint" := p.endpoint]]
  }

  /** The parameters the context carries, read back from it. */
  function FromContext(c: map<string, map<string, string>>, outputDir: string): Params
    requires "cookiecutter" in c && ContextKeys <= c["cookiecutter"].Keys
  {
    var v := c["cookiecutter"];
    Params(v["service_name"], v["service_port"], v["author"], v["author_email"], v["endpoint"], outputDir)
  }

  /** Every value is copied verbatim: reading the context back gives the parameters again. */
  lemma ContextRoundTrip(p: Params)
    ensures FromContext(CreateContext(p), p.outputDir) == p
  {
  }

  /** Parameters that differ only in the output directory give the same context. */
  lemma ContextIgnoresOutputDir(p: Params, outputDir: string)
    ensures CreateContext(p.(outputDir := outputDir)) == CreateContext(p)
  {
  }

  /** Different template values give different contexts. */
  lemma ContextInjective(p: Params, q: Params)
    requires CreateContext(p) == CreateContext(q)
    ensures p.(outputDir := q.outputDir) == q
  {
    ContextRoundTrip(p);
    ContextRoundTrip(q);
  }
}
