/**
 * The per-item failures of a transaction batch and the single message that
 * reports them: "SUCCESS", or a header line followed by one line
 * "\n{key}: {error}" per failure, in processing order.
 */
module BatchMessages {

  /**
   * Why one item of a batch failed; each stands for the exception the
   * original raises at that point.
   */
  datatype ItemError =
    | MissingKey(key: string)              // KeyError on a required request key
    | NoSuchTransaction(attribute: string) // attribute access on the None a lookup returned
    | NoRowFound                           // a lookup that must find exactly one row found none
    | NotAnInteger                         // a category id that is no integer literal
    | DateMissing                          // no date given to the date parser
    | MalformedDate                        // fromisoformat of a string that is no ISO date

  /** The text str(e) gives for the exception. */
  function Describe(e: ItemError): string {
    match e
    case MissingKey(k) => "'" + k + "'"
    // (each text written in short pieces, which the verifier can look inside)
    case NoSuchTransaction(a) => "'NoneType' " + "object has no " + "attribute '" + a + "'"
    case NoRowFound => "No row was " + "found when one " + "was required"
    case NotAnInteger => "invalid literal " + "for int() with " + "base 10"
    case DateMissing => "fromisoformat: " + "argument must " + "be str"
    case MalformedDate => "Invalid " + "isoformat string"
  }

  /** One failed item: its position in the batch (or, for deletions, the id) and the error. */
  datatype Failure = Failure(key: int, error: ItemError)

  /** The outcome of processing one item. */
  datatype Result<T> = Ok(value: T) | Err(error: ItemError)

  const Success: string := "SUCCESS"
  // (written in short pieces, which the verifier can look inside)
  const Header: string := "There were some " + "errors processing " + "the following " + "transactions:"

  // ---------------------------------------------------------------------
  // decimal rendering of the keys

  function Digit(d: nat): (c: char)
    requires d < 10
    ensures '0' <= c <= '9'
  {
    "0123456789"[d]
  }

  /** Only decimal digits. */
  predicate IsDigits(s: string) {
    forall i :: 0 <= i < |s| ==> '0' <= s[i] <= '9'
  }

  /** The decimal digits of n, most significant first. */
  function NatToString(n: nat): (s: string)
    ensures |s| >= 1 && IsDigits(s)
  {
    if n < 10 then [Digit(n)] else NatToString(n / 10) + [Digit(n % 10)]
  }

  /** The value of a string of decimal digits. */
  function DigitsValue(s: string): nat
    requires IsDigits(s)
  {
    if s == [] then 0 else DigitsValue(s[..|s| - 1]) * 10 + (s[|s| - 1] as int - '0' as int)
  }

  /** Reading the digits back gives the number: the rendering loses nothing. */
  lemma {:induction false} NatToStringRoundTrip(n: nat)
    ensures DigitsValue(NatToString(n)) == n
  {
    var s := NatToString(n);
    if n >= 10 {
      NatToStringRoundTrip(n / 10);
      assert s[..|s| - 1] == NatToString(n / 10);
    }
  }

  /** f"{i}" for an int: a minus sign, then the digits of its magnitude. */
  function IntToString(i: int): (s: string)
    ensures |s| >= 1 && (i < 0 <==> s[0] == '-')
    ensures '\n' !in s
  {
    var digits := NatToString(if i < 0 then -i else i);
    assert forall j :: 0 <= j < |digits| ==> digits[j] != '\n' && digits[j] != '-';
    if i < 0 then "-" + digits else digits
  }

  // ---------------------------------------------------------------------
  // the message

  function Line(f: Failure): string {
    "\n" + IntToString(f.key) + ": " + Describe(f.error)
  }

  /** The lines for all failures, in order. */
  function Lines(fs: seq<Failure>): string {
    if fs == [] then "" else Lines(fs[..|fs| - 1]) + Line(fs[|fs| - 1])
  }

  lemma LinesOfLongerPrefix(fs: seq<Failure>, i: nat)
    requires i < |fs|
    ensures Lines(fs[..i + 1]) == Lines(fs[..i]) + Line(fs[i])
  {
    assert fs[..i + 1][..i] == fs[..i];
  }

  /** "SUCCESS" when nothing failed, otherwise the header and one line per failure. */
  function BatchMessage(fs: seq<Failure>): (m: string)
    ensures m == Success <==> fs == []
    ensures fs != [] ==> |Header| <= |m| && m[..|Header|] == Header
  {
    if fs == [] then Success
    else
      var m := Header + Lines(fs);
      assert m[0] == Header[0] == 'T' != Success[0];
      m
  }

  /** One failure: the header, then exactly that failure's line. */
  lemma SingleFailureMessage(f: Failure)
    ensures BatchMessage([f]) == Header + Line(f)
  {
    assert [f][..|[f]| - 1] == [];
    assert Lines([f]) == Lines([]) + Line(f);
    assert Lines([]) + Line(f) == Line(f);
  }

  /** The shared message builder of the batch services. */
  method BuildMessage(problems: seq<Failure>) returns (message: string)
    ensures message == BatchMessage(problems)
  {
    message := Success;
    if |problems| != 0 {
      message := Header;
      NoLinesForEmptyPrefix(problems);
      for i := 0 to |problems|
        invariant message == Header + Lines(problems[..i])
      {
        LinesOfLongerPrefix(problems, i);
        AppendAssociates(Header, Lines(problems[..i]), Line(problems[i]));
        message := message + Line(problems[i]);
      }
      assert problems[..|problems|] == problems;
    }
  }

  lemma AppendAssociates(a: string, b: string, c: string)
    ensures (a + b) + c == a + (b + c)
  {
  }

  lemma NoLinesForEmptyPrefix(fs: seq<Failure>)
    ensures Header + Lines(fs[..0]) == Header
  {
    assert fs[..0] == [];
  }

  /** One more failure appends exactly one more line. */
  lemma MessageExtends(fs: seq<Failure>, f: Failure)
    requires fs != []
    ensures BatchMessage(fs + [f]) == BatchMessage(fs) + Line(f)
  {
    var gs := fs + [f];
    assert gs[..|gs| - 1] == fs && gs[|gs| - 1] == f;
    assert Lines(gs) == Lines(fs) + Line(f);
    AppendAssociates(Header, Lines(fs), Line(f));
  }

  /** A text without line breaks. */
  predicate SingleLine(s: string) {
    '\n' !in s
  }

  /** The number of line breaks in a text. */
  function LineBreaks(s: string): (n: nat)
    ensures SingleLine(s) ==> n == 0
  {
    multiset(s)['\n']
  }

  lemma {:induction false} LinesHaveOneBreakEach(fs: seq<Failure>)
    requires forall f :: f in fs ==> SingleLine(Describe(f.error))
    ensures LineBreaks(Lines(fs)) == |fs|
  {
    if fs != [] {
      var init, f := fs[..|fs| - 1], fs[|fs| - 1];
      assert forall g :: g in init ==> g in fs;
      LinesHaveOneBreakEach(init);
      var k := IntToString(f.key);
      assert Line(f) == ['\n'] + k + ": " + Describe(f.error);
      assert multiset(": ")['\n'] == 0;
      assert multiset(k)['\n'] == 0;
    }
  }

  /**
   * As long as no error text spans lines, the message has exactly one line
   * per failure after the header (and is a single line on success).
   */
  lemma OneLinePerFailure(fs: seq<Failure>)
    requires forall f :: f in fs ==> SingleLine(Describe(f.error))
    ensures LineBreaks(BatchMessage(fs)) == |fs|
  {
    if fs != [] {
      LinesHaveOneBreakEach(fs);
      HeaderIsSingleLine();
      LineBreaksAppend(Header, Lines(fs));
    } else {
      SuccessIsSingleLine();
    }
  }

  lemma SuccessIsSingleLine()
    ensures SingleLine(Success)
  {
    assert forall i :: 0 <= i < |Success| ==> Success[i] != '\n';
  }

  lemma LineBreaksAppend(a: string, b: string)
    ensures LineBreaks(a + b) == LineBreaks(a) + LineBreaks(b)
  {
    assert multiset(a + b) == multiset(a) + multiset(b);
  }

  lemma HeaderIsSingleLine()
    ensures '\n' !in Header
  {
    assert forall i :: 0 <= i < |Header| ==> Header[i] != '\n';
  }

  /** None of the error texts spans lines. */
  lemma DescriptionsAreSingleLine(e: ItemError)
    requires e.MissingKey? ==> SingleLine(e.key)
    requires e.NoSuchTransaction? ==> SingleLine(e.attribute)
    ensures SingleLine(Describe(e))
  {
    match e
    case MissingKey(k) =>
      assert Describe(e) == "'" + k + "'";
    case NoSuchTransaction(a) =>
      SingleLinePieces("'NoneType' ", "object has no ", "attribute '" + a + "'");
    case NoRowFound =>
      SingleLinePieces("No row was ", "found when one ", "was required");
    case NotAnInteger =>
      SingleLinePieces("invalid literal ", "for int() with ", "base 10");
    case DateMissing =>
      SingleLinePieces("fromisoformat: ", "argument must ", "be str");
    case MalformedDate =>
      SingleLinePieces("Invalid ", "isoformat string", "");
  }

  lemma SingleLinePieces(a: string, b: string, c: string)
    requires SingleLine(a) && SingleLine(b) && SingleLine(c)
    ensures SingleLine(a + b + c)
  {
  }

}
