# Exception alerting subscriber, modelled in Dafny

This project models the exception subscriber of a Shopware 6 plugin that
posts uncaught PHP exceptions to a Slack-compatible webhook
(`src/Subscriber.php`). The subscriber listens to the kernel's exception
event and makes three decisions, all modelled here as pure functions:

- **Enablement gate** (`isEnabled`). Alerting is on only when the
  `Error.config.enabled` flag is set and the `Error.config.webhookurl`
  string is not `empty()`. For a PHP string this means it is neither `""`
  nor `"0"`.
- **Severity gate** (`logKernelException`). An exception is reported when it
  is not an HTTP exception (`HttpExceptionInterface`), or when its status
  code is at least 500.
- **Message composition.** The text posted is the mention prefix
  (`getMentions`) followed directly by the alert line
  `Uncaught PHP Exception <class>: "<message>" at <file> line <line>`.
  The mention prefix comes from `explode(";", mentions)`: each piece is
  `trim()`med and written as ` <piece>`, and a line feed follows.
  Empty pieces are kept.

A failed post is caught, logged once with the failure attached, and never
propagates to the caller (`sendException`).

Modules:

- `Wrappers` (wrappers.dfy): `Option`.
- `PhpStrings` (php_strings.dfy): the PHP built-ins the subscriber uses.
  These are `empty()` on strings, `trim()` with its default character list
  (space, tab, LF, CR, NUL, vertical tab), and `explode()` with its inverse
  `implode()`. Strings stand for PHP byte strings, one `char` per byte.
- `Decimal` (decimal.dfy): how `sprintf('%s', …)` renders the integer line
  number.
- `Alert` (alert.dfy): the exception record and the alert line.
- `Mentions` (mentions.dfy): the mention prefix.
- `Subscriber` (subscriber.dfy): the config snapshot, the two gates,
  `SendException` and the event handler `LogKernelException`.

The HTTP client and the logger are not objects in the model. The outcome
the client would report (`Delivered` or `Threw(failure)`) is an input. The
observable behaviour is the result: the posts attempted and the error log
entries written (`Effects`).

Each string operation is tied to an independent characterisation:

- `Explode` and `Implode` are proved inverse in both directions.
- `Trim` is proved to meet an independent reference definition (`IsTrimOf`),
  and that definition is proved to have only one solution.
- The decimal rendering is proved to round-trip with its parser both ways:
  every integer renders to text that parses back to it, and every canonical
  digit run, with or without a leading minus sign, is the rendering of its
  own value.
- The class name and the line number are proved to be recoverable from the
  alert line.
- The mention prefix is related to the handle list it was joined from.

In the source, `getMentions` only appends the line feed when the result is
non-empty (`if(strlen($result))`). `explode` always yields at least one
piece, so that test always succeeds. The model keeps the test and proves
that it always succeeds (the contract of `Mentions.FromConfig`). One
consequence: an empty mentions setting still produces ` <>` and a line
feed (`Mentions.EmptyConfig`).

The subscriber has no bot, class, referer or environment filtering, no
stack traces and no truncation. Concretely:

- HTTP exceptions below 500 are never reported.
- The text is never truncated.
- An empty mentions setting still yields ` <>\n`.
- The JSON body carries only `text`.

## Model

| member | source | states |
|---|---|---|
| Subscriber.LogKernelException | src/Subscriber.php:59-71 | When disabled, nothing is posted or logged. When enabled, exactly one post is attempted if the exception is severe (not HTTP, or status >= 500), and none otherwise. The post is the one `sendException` makes with the alert line. At most one entry is logged, and only after a post that threw. |
| Subscriber.SendException | src/Subscriber.php:76-101 | Exactly one post, to the configured URL. Its text is the mention prefix followed directly by the whole message, with nothing in between and no truncation. A delivered post logs nothing. A failed post logs exactly one error entry with the failure's message and the failure attached. |
| Subscriber.IsEnabled | src/Subscriber.php:106-108 | Alerting is on exactly when the enabled flag is set and the webhook URL is neither `""` nor `"0"`. |
| Subscriber.IsSevere | src/Subscriber.php:66 | An exception is passed over exactly when it carries an HTTP status below 500. Without a status, or with one of 500 or more, it is reported. |
| Subscriber.DisabledSendsNothing | src/Subscriber.php:61-63 | If the enabled flag is false, or the webhook URL is `""` or `"0"` (`empty()`, lines 106-108), no post and no log happen, whatever the exception and the client outcome. |
| Subscriber.NonHttpAlwaysAlerts | src/Subscriber.php:66-69 | When enabled, an exception without an HTTP status produces exactly one post: to the configured URL, with the mentions followed by its alert line. |
| Subscriber.StatusThreshold | src/Subscriber.php:66 | When enabled, an HTTP exception is posted if and only if its status is >= 500. A status of 499 or below leaves no post and no log. |
| Subscriber.FailuresContained | src/Subscriber.php:92-100 | For a reported exception, a throwing client yields exactly one log entry carrying the failure, and the same single post as a successful delivery. The handler still returns a result, so nothing propagates. A successful delivery logs nothing. |
| Subscriber.RuntimeExceptionScenario | src/Subscriber.php:59-91 | End to end: a plain `RuntimeException("boom")` at `Cart.php:42`, alerting enabled, mention `ops`. The one post goes to the configured URL with text ` <ops>\nUncaught PHP Exception RuntimeException: "boom" at Cart.php line 42`. |
| Subscriber.OpsMention | src/Subscriber.php:115-126 | The mentions setting `ops` yields ` <ops>` and a line feed. |
| Subscriber.FortyTwo | src/Subscriber.php:69 | `%s` renders the line number 42 as `42`. |
| Subscriber.CartAlertLine | src/Subscriber.php:69 | The alert line for that exception is exactly `Uncaught PHP Exception RuntimeException: "boom" at Cart.php line 42`. |
| Alert.AlertLine | src/Subscriber.php:69 | The alert line always starts with the fixed text `Uncaught PHP Exception `. |
| Alert.AlertLineRecoversClass | src/Subscriber.php:69 | The class name is what follows the fixed prefix up to the first colon, so it can be read back from the alert line. PHP class names contain no colon. |
| Alert.AlertLineRecoversLine | src/Subscriber.php:69 | The line number is the last space-separated word of the alert line, so it can be read back whatever the message and file name contain. |
| Mentions.FromConfig | src/Subscriber.php:113-127 | The mention prefix is never empty: it is the segments of the exploded pieces followed by exactly one line feed, which comes right after the closing `>`. So the `strlen` test always succeeds. |
| Mentions.FromConfigOfKeys | src/Subscriber.php:115-126 | For `;`-free keys joined by `;`, the mention prefix is exactly one segment per key, in order, each key trimmed, then a line feed. |
| Mentions.SegmentAt | src/Subscriber.php:117-120 | Each handle contributes exactly one ` <handle>` segment, between the segments of the handles before it and those after it. |
| Mentions.SegmentsAppend | src/Subscriber.php:117-120 | The loop's appends compose: the segments of a concatenation are the concatenation of the segments. |
| Mentions.SegmentsSnoc | src/Subscriber.php:119 | One more iteration appends exactly ` <handle>` for that handle. |
| Mentions.TrimAll | src/Subscriber.php:117-118 | One trimmed key per exploded piece, same count, same order. |
| Mentions.SingleHandle | src/Subscriber.php:115-126 | A single handle with no `;` and no surrounding blanks yields ` <handle>` and a line feed. |
| Mentions.EmptyPieceKept | src/Subscriber.php:117-120 | Empty pieces are kept: `a;;b` yields ` <a> <> <b>` and a line feed, for any `;`-free `a` and `b`, with each trimmed. |
| Mentions.EmptyConfig | src/Subscriber.php:115-126 | An empty mentions setting yields ` <>` and a line feed. |
| PhpStrings.IsEmpty | src/Subscriber.php:107 | A string is `empty()` exactly when it is `""` or the one-character `"0"`. Longer strings such as `"00"` are never empty. |
| PhpStrings.Trim | src/Subscriber.php:118 | `trim` never lengthens its input, and the result is empty or starts and ends with a non-blank character. |
| PhpStrings.Explode | src/Subscriber.php:117 | `explode` returns at least one piece. No piece contains the delimiter, and joining the pieces with it gives the input back. |
| PhpStrings.ExplodeImplode | src/Subscriber.php:117 | Exploding the join of delimiter-free pieces gives back exactly those pieces, in order. |
| PhpStrings.TrimIsTrimOf | src/Subscriber.php:118 | `trim` returns a contiguous part of its input. Only default blanks are cut from either side, and neither end of the result is blank. |
| PhpStrings.TrimOfUnique | src/Subscriber.php:118 | That description allows exactly one result, so it fully defines `trim`. |
| PhpStrings.TrimIdempotent | src/Subscriber.php:118 | Trimming twice gives the same as trimming once. |
| PhpStrings.TrimLeftSpec | src/Subscriber.php:118 | The left pass keeps a suffix, cuts only blanks, and stops at a non-blank. |
| PhpStrings.TrimRightSpec | src/Subscriber.php:118 | The right pass keeps a prefix, cuts only blanks, and stops at a non-blank. |
| Decimal.IntToDecimal | src/Subscriber.php:69 | The `%s` rendering of the line number is non-empty and contains no space. Parsing it back gives the number. |
| Decimal.NatToDecimal | src/Subscriber.php:69 | The digits of a natural number have no leading zero, and parsing them back gives the number. |
| Decimal.IntCanonicalRoundTrip | src/Subscriber.php:69 | Every canonical digit run, and every one other than `0` with a minus sign in front, is the `%s` rendering of its own value, so the signed rendering is unique too. |
| Decimal.CanonicalRoundTrip | src/Subscriber.php:69 | Every digit string without a leading zero renders its own value, so the rendering is unique. |

## Left out

- The HTTP POST through Guzzle is left out (lines 79-91), together with the
  JSON encoding of the body, the `Content-Type` header and the 15-second
  timeouts. These are foreign I/O. The post is a record of URL and text,
  and its outcome is an input.
- A `json_encode` failure (for example, invalid UTF-8 in the message) is not
  modelled. Encoding is outside the model.
- The event wiring (`getSubscribedEvents`, `ExceptionEvent`) and the
  construction of `FlattenException` are replaced by a plain exception
  record. That record holds the class, message, file, line and optional
  status code. `FlattenException`'s rewriting of anonymous class names is
  not modelled.
- `SystemConfigService` is replaced by a `Config` snapshot. The source reads
  the webhook URL twice per event: once in the enablement gate (line 107)
  and again for the post (line 80). The mentions are read once (line 115,
  reached from line 83). The model assumes both URL reads agree.
- The logger's `is_null` check (lines 93 and 97) is not modelled. The
  constructor's type declaration rules out a null logger, so the model
  always logs.
- PHP `\Error` throwables raised by the client are not modelled. Neither
  catch clause matches them, so they would propagate. `Threw` stands for the
  caught `\Exception` and `GuzzleException` cases only.
- The constructor is not modelled. It only stores its three collaborators.
