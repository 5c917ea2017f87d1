/** The exception subscriber: on every uncaught kernel exception it decides
    whether to alert and, if so, posts the mentions and the alert line to
    the configured webhook, logging (never raising) a failed delivery.

    The HTTP client and the logger are not modelled as objects: the outcome
    the client would report is an input, and the observable behaviour (the
    posts attempted and the log entries written) is the result. */
module Subscriber {
  import opened Wrappers
  import PhpStrings
  import Alert
  import Mentions
  import Decimal

  /** The plugin settings read for one exception: `Error.config.enabled`,
      `Error.config.webhookurl` and `Error.config.mentions`. */
  datatype Config = Config(enabled: bool, webhookUrl: string, mentions: string)

  /** An exception raised while posting, reduced to its message. */
  datatype Failure = Failure(message: string)

  /** What the HTTP client does with one post: it is delivered, or the client
      throws. */
  datatype PostOutcome = Delivered | Threw(failure: Failure)

  /** One POST to the webhook: the target URL and the `text` of the JSON body. */
  datatype Post = Post(url: string, text: string)

  /** `logger->error($message, ['exception' => $e])`. */
  datatype LogEntry = ErrorLog(message: string, exception: Failure)

  /** Everything an exception event makes observable. */
  datatype Effects = Effects(posts: seq<Post>, logs: seq<LogEntry>)

  const NoEffects := Effects([], [])

  /** Alerting is on when the flag is set and the webhook URL is not
      `empty()` (neither "" nor "0"). */
  function IsEnabled(cfg: Config): (b: bool)
    ensures b <==> cfg.enabled && cfg.webhookUrl != "" && cfg.webhookUrl != "0"
  {
    cfg.enabled && !PhpStrings.IsEmpty(cfg.webhookUrl)
  }

  /** Worth an alert: not an HTTP exception at all, or a server error. Only
      an HTTP exception with a status below 500 is passed over. */
  function IsSevere(e: Alert.ThrownException): (b: bool)
    ensures !b <==> e.statusCode.Some? && e.statusCode.value < 500
  {
    e.statusCode.None? || e.statusCode.value >= 500
  }

  /** Posts `message` behind the mentions. Exactly one post is attempted;
      its text is the mention prefix followed directly by the whole
      message. A delivery failure is caught and logged once, with the
      failure attached, and never propagates. */
  function SendException(cfg: Config, message: string, outcome: PostOutcome): (eff: Effects)
    ensures |eff.posts| == 1 && eff.posts[0].url == cfg.webhookUrl
    ensures var m := Mentions.FromConfig(cfg.mentions);
      var text := eff.posts[0].text;
      && |text| == |m| + |message|
      && text[..|m|] == m
      && text[|m|..] == message
    ensures outcome.Delivered? ==> eff.logs == []
    ensures outcome.Threw? ==> eff.logs == [ErrorLog(outcome.failure.message, outcome.failure)]
  {
    var post := Post(cfg.webhookUrl, Mentions.FromConfig(cfg.mentions) + message);
    match outcome
    case Delivered => Effects([post], [])
    case Threw(failure) => Effects([post], [ErrorLog(failure.message, failure)])
  }

  /** The handler of the kernel's exception event. Nothing happens when
      alerting is disabled; otherwise a severe exception leads to exactly
      one post of its alert line, and any other exception to nothing.
      At most one entry is ever logged, and only for a post that failed. */
  function LogKernelException(cfg: Config, e: Alert.ThrownException, outcome: PostOutcome): (eff: Effects)
    ensures !IsEnabled(cfg) ==> eff == NoEffects
    ensures IsEnabled(cfg) ==> (eff.posts != [] <==> IsSevere(e))
    ensures |eff.posts| <= 1 && |eff.logs| <= |eff.posts|
    ensures eff.logs != [] ==> outcome.Threw?
    ensures eff.posts != [] ==> eff == SendException(cfg, Alert.AlertLine(e), outcome)
  {
    if !IsEnabled(cfg) then NoEffects
    else if IsSevere(e) then SendException(cfg, Alert.AlertLine(e), outcome)
    else NoEffects
  }

  /** A disabled flag, or an `empty()` webhook URL ("" or "0"), means no
      post and no log, whatever the exception and whatever the client
      would have done. */
  lemma DisabledSendsNothing(cfg: Config, e: Alert.ThrownException, outcome: PostOutcome)
    requires !cfg.enabled || cfg.webhookUrl == "" || cfg.webhookUrl == "0"
    ensures LogKernelException(cfg, e, outcome) == NoEffects
  {
  }

  /** When enabled, an exception that carries no HTTP status is always
      posted, exactly once, with the mentions in front of its alert line. */
  lemma NonHttpAlwaysAlerts(cfg: Config, e: Alert.ThrownException, outcome: PostOutcome)
    requires cfg.enabled && cfg.webhookUrl != "" && cfg.webhookUrl != "0"
    requires e.statusCode == None
    ensures LogKernelException(cfg, e, outcome).posts
      == [Post(cfg.webhookUrl, Mentions.FromConfig(cfg.mentions) + Alert.AlertLine(e))]
  {
  }

  /** When enabled, an HTTP exception is posted if and only if its status
      is at least 500; a status of 499 or below leaves no trace at all. */
  lemma StatusThreshold(cfg: Config, e: Alert.ThrownException, outcome: PostOutcome, status: int)
    requires cfg.enabled && cfg.webhookUrl != "" && cfg.webhookUrl != "0"
    requires e.statusCode == Some(status)
    ensures LogKernelException(cfg, e, outcome).posts != [] <==> status >= 500
    ensures status < 500 ==> LogKernelException(cfg, e, outcome) == NoEffects
  {
  }

  /** A failed delivery is logged exactly once, with its message and the
      failure attached, and the handler still returns normally with the one
      attempted post; a delivered post logs nothing. */
  lemma FailuresContained(cfg: Config, e: Alert.ThrownException, failure: Failure)
    requires IsEnabled(cfg) && IsSevere(e)
    ensures LogKernelException(cfg, e, Threw(failure)).logs == [ErrorLog(failure.message, failure)]
    ensures LogKernelException(cfg, e, Threw(failure)).posts
      == LogKernelException(cfg, e, Delivered).posts
    ensures LogKernelException(cfg, e, Delivered).logs == []
  {
  }

  /** The mention prefix for the single handle `ops`. */
  lemma OpsMention()
    ensures Mentions.FromConfig("ops") == " <ops>\n"
  {
    assert PhpStrings.Trim("ops") == "ops";
    Mentions.SingleHandle("ops");
    assert Mentions.Wrap("ops") + "\n" == " <ops>\n";
  }

  /** The line number 42 as `%s` renders it. */
  lemma FortyTwo()
    ensures Decimal.IntToDecimal(42) == "42"
  {
    assert Decimal.DigitChar(4) == '4' && Decimal.DigitChar(2) == '2';
    assert Decimal.NatToDecimal(4) == "4";
  }

  /** The alert line of a runtime exception thrown at line 42 of a file. */
  lemma CartAlertLine()
    ensures Alert.AlertLine(Alert.ThrownException("RuntimeException", "boom", "Cart.php", 42, None))
      == "Uncaught PHP Exception RuntimeException: \"boom\" at Cart.php line 42"
  {
    var head := "Uncaught PHP Exception RuntimeException: \"boom\" at Cart.php line ";
    calc {
      Alert.AlertLine(Alert.ThrownException("RuntimeException", "boom", "Cart.php", 42, None));
      Alert.Prefix + "RuntimeException" + ": \"" + "boom" + "\" at " + "Cart.php" + " line "
        + Decimal.IntToDecimal(42);
      { FortyTwo();
        assert Alert.Prefix + "RuntimeException" + ": \""
          == "Uncaught PHP Exception RuntimeException: \"";
        assert "Uncaught PHP Exception RuntimeException: \"" + "boom" + "\" at "
          == "Uncaught PHP Exception RuntimeException: \"boom\" at ";
        assert "Uncaught PHP Exception RuntimeException: \"boom\" at " + "Cart.php" + " line "
          == head; }
      head + "42";
    }
  }

  /** End to end: a plain runtime exception, alerting enabled, the mention
      `ops` configured: one post of the mention line followed by the alert
      line, to the configured URL. */
  lemma RuntimeExceptionScenario(outcome: PostOutcome)
    ensures LogKernelException(
      Config(true, "https://hooks.example/abc", "ops"),
      Alert.ThrownException("RuntimeException", "boom", "Cart.php", 42, None),
      outcome).posts
      == [Post("https://hooks.example/abc",
               " <ops>\n" + "Uncaught PHP Exception RuntimeException: \"boom\" at Cart.php line 42")]
  {
    OpsMention();
    CartAlertLine();
  }
}
