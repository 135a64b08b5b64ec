/**
 * What `infoLogin` makes of the `chage -l` expiry field once the remote
 * stream closes, and how `isExpired` reads the resulting object.  Date
 * parsing (`new Date(text)` with its `isNaN` test) and the current time are
 * parameters.
 */
module Expiry {
  import opened Wrappers
  import opened JsText

  /** A JavaScript time value: milliseconds since the epoch. */
  type Instant = int

  /** `new Date(text)`: `None` when the result is an Invalid Date. */
  type DateParser = string -> Option<Instant>

  /** The `data` member: a Date, or a date in text form (as after a JSON round trip). */
  datatype Expiration = DateValue(time: Instant) | TextValue(text: string)

  /** `{loginName, exists, data}` (`accountExists` is the `exists` member); `None` stands for both `data: null` and a missing `data`. */
  datatype LoginInfo = LoginInfo(loginName: string, accountExists: bool, data: Option<Expiration>)

  /** The two `Error`s: an unparseable expiry from the server, an unparseable `data`. */
  datatype ExpiryError = InvalidExpiration | InvalidDate

  /** The `close` handler of `infoLogin`, given everything the command wrote to stdout. */
  function Classify(loginName: string, stdout: string, parse: DateParser): (r: Result<LoginInfo, ExpiryError>)
    ensures r.Success? ==> r.value.loginName == loginName
    ensures r == Success(LoginInfo(loginName, false, None)) <==> stdout == []
    ensures r == Success(LoginInfo(loginName, true, None)) <==> stdout != [] && Trim(stdout) == "never"
    ensures r == Failure(InvalidExpiration) <==>
              stdout != [] && Trim(stdout) != "never" && parse(Trim(stdout)).None?
    ensures r.Success? && r.value.data.Some? ==>
              r.value.accountExists && r.value.data == Some(DateValue(parse(Trim(stdout)).value))
    ensures r.Failure? ==> r.error == InvalidExpiration
  {
    if stdout == [] then Success(LoginInfo(loginName, false, None))
    else
      var text := Trim(stdout);
      if text == "never" then Success(LoginInfo(loginName, true, None))
      else match parse(text)
        case None => Failure(InvalidExpiration)
        case Some(time) => Success(LoginInfo(loginName, true, Some(DateValue(time))))
  }

  /** `isExpired(obj)` at time `now`. */
  function IsExpired(obj: Option<LoginInfo>, now: Instant, parse: DateParser): (r: Result<bool, ExpiryError>)
    ensures obj.None? || obj.value.data.None? ==> r == Success(false)
    ensures r.Failure? ==>
              && r.error == InvalidDate && obj.Some? && obj.value.data.Some?
              && obj.value.data.value.TextValue? && parse(obj.value.data.value.text).None?
    ensures r == Success(true) ==>
              && obj.Some? && obj.value.data.Some?
              && match obj.value.data.value
                 case DateValue(t) => t < now
                 case TextValue(s) => parse(s).Some? && parse(s).value < now
    ensures obj.Some? && obj.value.data.Some? ==>
              match obj.value.data.value
              case DateValue(t) => r == Success(t < now)
              case TextValue(s) =>
                if s == [] then r == Success(false)
                else if parse(s).None? then r == Failure(InvalidDate)
                else r == Success(parse(s).value < now)
  {
    match obj
    case None => Success(false)
    case Some(info) =>
      match info.data
      case None => Success(false)
      case Some(DateValue(t)) => Success(t < now)
      case Some(TextValue(s)) =>
        if s == [] then Success(false)        // an empty string is falsy
        else match parse(s)
          case None => Failure(InvalidDate)
          case Some(t) => Success(t < now)
  }

  /** The command's answer for a non-expiring account parses as "exists, no expiry". */
  lemma NeverRoundTrip(loginName: string, parse: DateParser)
    ensures Classify(loginName, "never\n", parse) == Success(LoginInfo(loginName, true, None))
  {
    assert Trimmed("never");
    TrimTrimmed("never");
    assert Trim("never\n") == "never" by {
      var s := "never\n";
      assert LeadingSpace(s) == 0;
      assert s[..|s| - 1] == "never";
      assert TrailingSpace("never") == 0;
      assert TrailingSpace(s) == 1;
    }
  }

  /** A date the parser accepts, printed on a line of its own, comes back as that date. */
  lemma DateRoundTrip(loginName: string, text: string, t: Instant, parse: DateParser)
    requires text != [] && Trimmed(text) && text != "never"
    requires parse(text) == Some(t)
    ensures Classify(loginName, text + "\n", parse) == Success(LoginInfo(loginName, true, Some(DateValue(t))))
  {
    var s := text + "\n";
    assert s[0] == text[0];
    assert LeadingSpace(s) == 0;
    assert s[..|s| - 1] == text;
    assert TrailingSpace(text) == 0;
    assert TrailingSpace(s) == 1;
    assert s[0..] == s;
  }

  /** Output made only of whitespace is not "does not exist": it fails like any unparseable date. */
  lemma BlankOutputFails(loginName: string, stdout: string, parse: DateParser)
    requires stdout != [] && forall i :: 0 <= i < |stdout| ==> IsWhitespace(stdout[i])
    requires parse([]).None?
    ensures Classify(loginName, stdout, parse) == Failure(InvalidExpiration)
  {
    assert Trim(stdout) == [];
  }

  /** `isExpired` never fails on what `infoLogin` resolves with, and says "expired" exactly for a past date. */
  lemma ExpiredAfterClassify(loginName: string, stdout: string, now: Instant, parse: DateParser)
    requires Classify(loginName, stdout, parse).Success?
    ensures var info := Classify(loginName, stdout, parse).value;
            IsExpired(Some(info), now, parse).Success?
            && (IsExpired(Some(info), now, parse).value <==>
                  info.data.Some? && info.data.value.time < now)
  {
  }

  /** Serialising the date to text that parses back to the same instant does not change the verdict. */
  lemma ExpiredThroughText(info: LoginInfo, t: Instant, text: string, now: Instant, parse: DateParser)
    requires info.data == Some(DateValue(t))
    requires text != [] && parse(text) == Some(t)
    ensures IsExpired(Some(info), now, parse) == IsExpired(Some(info.(data := Some(TextValue(text)))), now, parse)
  {
  }

  /** Once expired, an account stays expired as time goes on. */
  lemma ExpiredStays(obj: Option<LoginInfo>, now: Instant, later: Instant, parse: DateParser)
    requires now <= later
    requires IsExpired(obj, now, parse) == Success(true)
    ensures IsExpired(obj, later, parse) == Success(true)
  {
  }
}
