/** The one-line description of an uncaught exception that is sent to the
    webhook, built with `sprintf('Uncaught PHP Exception %s: "%s" at %s line %s', ...)`
    from the flattened exception. */
module Alert {
  import opened Wrappers
  import PhpStrings
  import Decimal

  /** What the core reads of a thrown exception: its class, message, the file
      and line it was thrown at, and the status code if it is an HTTP
      exception (`HttpExceptionInterface`); `None` for any other throwable. */
  datatype ThrownException = ThrownException(
    className: string,
    message: string,
    file: string,
    line: int,
    statusCode: Option<int>)

  const Prefix := "Uncaught PHP Exception "

  /** The alert text for `e`. */
  function AlertLine(e: ThrownException): (r: string)
    ensures |r| > |Prefix| && r[..|Prefix|] == Prefix
  {
    Prefix + e.className + ": \"" + e.message + "\" at " + e.file + " line " + Decimal.IntToDecimal(e.line)
  }

  /** Reads a class name back from an alert text: what follows the fixed
      prefix, up to the first colon. */
  function ClassOf(s: string): string
  {
    if |s| < |Prefix| then ""
    else
      var rest := s[|Prefix|..];
      rest[..PhpStrings.FirstIndex(rest, ':')]
  }

  /** Reads a line number back from an alert text: the value of its last
      space-separated word. */
  function LineOf(s: string): int
  {
    Decimal.ParseInt(s[PhpStrings.LastIndex(s, ' ') + 1..])
  }

  /** The alert text is unambiguous at its start: the class name can be
      read back from it (PHP class names hold no colon). */
  lemma AlertLineRecoversClass(e: ThrownException)
    requires ':' !in e.className
    ensures ClassOf(AlertLine(e)) == e.className
  {
    var afterClass := " \"" + e.message + "\" at " + e.file + " line " + Decimal.IntToDecimal(e.line);
    var rest := e.className + [':'] + afterClass;
    calc {
      ClassOf(AlertLine(e));
      { assert AlertLine(e)[|Prefix|..] == rest; }
      rest[..PhpStrings.FirstIndex(rest, ':')];
      { PhpStrings.FirstIndexAfter(e.className, ':', afterClass); }
      rest[..|e.className|];
      e.className;
    }
  }

  /** The alert text is unambiguous at its end: the line number can be read
      back from it, whatever the message and file name hold. */
  lemma AlertLineRecoversLine(e: ThrownException)
    ensures LineOf(AlertLine(e)) == e.line
  {
    var s := AlertLine(e);
    var digits := Decimal.IntToDecimal(e.line);
    var head := Prefix + e.className + ": \"" + e.message + "\" at " + e.file + " line";
    assert s == head + [' '] + digits;
    PhpStrings.LastIndexBefore(head, ' ', digits);
    assert s[|head| + 1..] == digits;
  }
}
