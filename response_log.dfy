/**
 * The `onResponse` hook's classification of a finished request
 * (src/http.js:68-96): the colour band and text of the status code, and
 * the log level chosen from the route the request matched.
 */
module ResponseLog {
  import opened Wrappers
  import opened Registrar

  // ---------------------------------------------------------------
  // Status code: colour band
  // ---------------------------------------------------------------

  datatype Band = ServerError | ClientError | Redirection | Success | Informational

  /** The chain of `>=` tests on `res.statusCode`. */
  function StatusBand(code: int): (b: Band) {
    if code >= 500 then ServerError
    else if code >= 400 then ClientError
    else if code >= 300 then Redirection
    else if code >= 200 then Success
    else Informational
  }

  /** The colour code put in front of the status. */
  function BandColour(b: Band): (c: string) {
    match b
    case ServerError => "&4"
    case ClientError => "&6"
    case Redirection => "&3"
    case Success => "&2"
    case Informational => "&f"
  }

  /** The band's place in the order of the tests, worst first. */
  function Severity(b: Band): (n: nat) {
    match b
    case ServerError => 4
    case ClientError => 3
    case Redirection => 2
    case Success => 1
    case Informational => 0
  }

  /** The band of an HTTP status class (the code's hundreds digit); 5 and above count as server errors. */
  function ClassBand(c: nat): (b: Band) {
    match c
    case 0 => Informational
    case 1 => Informational
    case 2 => Success
    case 3 => Redirection
    case 4 => ClientError
    case _ => ServerError
  }

  /** For a non-negative code the tests pick exactly the band of its hundreds digit. */
  lemma StatusBandByClass(code: int)
    requires code >= 0
    ensures StatusBand(code) == ClassBand(code / 100)
  {
  }

  /** A larger code never lands in a less severe band. */
  lemma StatusBandMonotone(a: int, b: int)
    requires a <= b
    ensures Severity(StatusBand(a)) <= Severity(StatusBand(b))
  {
  }

  /** Every colour is two characters, and distinct bands get distinct colours. */
  lemma BandColourInjective(b1: Band, b2: Band)
    ensures |BandColour(b1)| == 2
    ensures BandColour(b1) == BandColour(b2) <==> b1 == b2
  {
    if b1 != b2 {
      assert BandColour(b1)[1] != BandColour(b2)[1];
    }
  }

  // ---------------------------------------------------------------
  // Status code: decimal text (`'&4' + res.statusCode`)
  // ---------------------------------------------------------------

  predicate IsDigit(c: char) {
    '0' <= c <= '9'
  }

  predicate AllDigits(s: string) {
    forall i :: 0 <= i < |s| ==> IsDigit(s[i])
  }

  function DigitChar(d: nat): (c: char)
    requires d < 10
    ensures IsDigit(c)
  {
    ('0' as int + d) as char
  }

  function DigitValue(c: char): (d: nat)
    requires IsDigit(c)
    ensures d < 10
  {
    c as int - '0' as int
  }

  /**
   * The shortest decimal spelling of `n`. JavaScript converts an integer
   * below 10^21 to a string this way (a status code has three digits);
   * larger numbers get exponent form, which is not modelled.
   */
  function Digits(n: nat): (s: string)
    ensures |s| >= 1
    decreases n
  {
    if n < 10 then [DigitChar(n)] else Digits(n / 10) + [DigitChar(n % 10)]
  }

  /** The number a string of decimal digits spells. */
  function DigitsValue(s: string): (n: nat)
    requires AllDigits(s)
    decreases |s|
  {
    if s == [] then 0 else 10 * DigitsValue(s[..|s| - 1]) + DigitValue(s[|s| - 1])
  }

  /** `Digits` writes digits only, with no leading zero except for zero itself. */
  lemma {:induction false} DigitsWellFormed(n: nat)
    ensures AllDigits(Digits(n))
    ensures Digits(n)[0] == '0' <==> n == 0
    decreases n
  {
    if n >= 10 {
      DigitsWellFormed(n / 10);
      var s := Digits(n / 10);
      assert Digits(n) == s + [DigitChar(n % 10)];
      assert Digits(n)[0] == s[0];
    }
  }

  /** Reading the digits back gives the number. */
  lemma {:induction false} DigitsRoundTrip(n: nat)
    ensures AllDigits(Digits(n))
    ensures DigitsValue(Digits(n)) == n
    decreases n
  {
    DigitsWellFormed(n);
    if n >= 10 {
      DigitsRoundTrip(n / 10);
      var s := Digits(n);
      assert s[..|s| - 1] == Digits(n / 10);
    }
  }

  /** A number's text: a minus sign for a negative one, then its digits. */
  function NumberText(code: int): (s: string) {
    if code < 0 then "-" + Digits(-code) else Digits(code)
  }

  /** The coloured status as the log line shows it. */
  function StatusText(code: int): (s: string) {
    BandColour(StatusBand(code)) + NumberText(code)
  }

  /** Different numbers have different texts. */
  lemma NumberTextInjective(a: int, b: int)
    requires NumberText(a) == NumberText(b)
    ensures a == b
  {
    if a < 0 && b < 0 {
      assert Digits(-a) == NumberText(a)[1..] == NumberText(b)[1..] == Digits(-b);
      DigitsRoundTrip(-a);
      DigitsRoundTrip(-b);
    } else if a >= 0 && b >= 0 {
      DigitsRoundTrip(a);
      DigitsRoundTrip(b);
    } else if a < 0 {
      DigitsWellFormed(b);
    } else {
      DigitsWellFormed(a);
    }
  }

  /**
   * The status text starts with the band's colour and ends with the
   * code, and the code can be read back from it.
   */
  lemma StatusTextDecodes(code: int)
    ensures StatusText(code)[..2] == BandColour(StatusBand(code))
    ensures StatusText(code)[2..] == NumberText(code)
    ensures code >= 0 ==> AllDigits(StatusText(code)[2..]) && DigitsValue(StatusText(code)[2..]) == code
  {
    BandColourInjective(StatusBand(code), StatusBand(code));
    if code >= 0 {
      DigitsRoundTrip(code);
    }
  }

  /** Two responses share a status text only when they share the code. */
  lemma StatusTextInjective(a: int, b: int)
    requires StatusText(a) == StatusText(b)
    ensures a == b
  {
    StatusTextDecodes(a);
    StatusTextDecodes(b);
    NumberTextInjective(a, b);
  }

  // ---------------------------------------------------------------
  // Log level
  // ---------------------------------------------------------------

  datatype Level = Debug | Verbose | Info

  /**
   * The level from `req.routeOptions?.url`: `None` when the request
   * matched no route options.
   */
  function LogLevel(url: Option<string>): (l: Level) {
    if url == Some("/status") then Debug
    else if url == Some("/*") then Verbose
    else Info
  }

  /** The level is debug exactly for `/status`, verbose exactly for the catch-all route, and info otherwise. */
  lemma LogLevelExactly(u: Option<string>)
    ensures LogLevel(u) == Debug <==> u == Some("/status")
    ensures LogLevel(u) == Verbose <==> u == Some("/*")
    ensures LogLevel(u) == Info <==> u != Some("/status") && u != Some("/*")
  {
  }

  /** The name of the logger method called. */
  function LevelName(l: Level): (name: string) {
    match l
    case Debug => "debug"
    case Verbose => "verbose"
    case Info => "info"
  }

  /** Distinct levels use distinct logger methods. */
  lemma LevelNameInjective(l1: Level, l2: Level)
    ensures LevelName(l1) == LevelName(l2) <==> l1 == l2
  {
    if l1 != l2 {
      assert LevelName(l1)[0] != LevelName(l2)[0];
    }
  }

  /**
   * Over the route table: the health check logs at debug, the catch-all
   * at verbose, and a discovered route at info unless its path is one of
   * those two.
   */
  lemma RouteTableLevels(dir: string, files: seq<RouteFile>, k: nat)
    requires k < |RouteTable(dir, files)|
    ensures RouteTable(dir, files)[k] == StatusRoute ==> LogLevel(Some(RouteTable(dir, files)[k].path)) == Debug
    ensures RouteTable(dir, files)[k] == CatchAll ==> LogLevel(Some(RouteTable(dir, files)[k].path)) == Verbose
    ensures LogLevel(Some(RouteTable(dir, files)[k].path)) == Info <==>
      RouteTable(dir, files)[k].path != "/status" && RouteTable(dir, files)[k].path != "/*"
  {
  }

  /** A request that matched no route options logs at info. */
  lemma UnroutedIsInfo()
    ensures LogLevel(None) == Info
  {
  }
}
