/**
 * The Slack settings routes: the `configured` flag reported to the client and
 * the rewrite of the SLACK_ENABLED line of the `.env` file. The file itself is
 * not modelled: its lines go in and the rewritten lines come out.
 */
module SettingsRoutes {
  import opened Wrappers
  import opened Text

  /** The runtime settings object the routes read and update. */
  class Settings {
    var slackBotToken: string
    var slackChannel: string
    var slackEnabled: bool

    constructor (token: string, channel: string, enabled: bool)
      ensures slackBotToken == token && slackChannel == channel && slackEnabled == enabled
    {
      slackBotToken := token;
      slackChannel := channel;
      slackEnabled := enabled;
    }

    /** `get_slack_settings`: the channel, the flag, and whether both a token
        and a channel are set. */
    function GetSlackSettings(): (r: SlackSettingsResponse)
      reads this
      ensures r.configured <==> slackBotToken != "" && slackChannel != ""
      ensures r.channel == slackChannel && r.enabled == slackEnabled
    {
      SlackSettingsResponse(slackChannel, slackEnabled, slackBotToken != "" && slackChannel != "")
    }

    /** `save_slack_settings`: rewrites the lines of the file and then sets the
        runtime flag to the value written. */
    method SaveSlackSettings(lines: seq<string>, enabled: bool) returns (written: seq<string>)
      modifies this
      ensures written == RewriteEnabled(lines, enabled)
      ensures slackEnabled == enabled
      ensures slackBotToken == old(slackBotToken) && slackChannel == old(slackChannel)
    {
      written := lines;
      var found := false;
      var i := 0;
      while i < |written|
        invariant 0 <= i <= |written|
        invariant !found ==> written == lines && forall j :: 0 <= j < i ==> !IsEnabledLine(lines[j])
        invariant found ==> written == RewriteEnabled(lines, enabled)
      {
        if IsEnabledLine(written[i]) {
          FirstEnabledLineAt(lines, i);
          written := written[i := EnabledLine(enabled)];
          found := true;
          break;
        }
        i := i + 1;
      }
      if !found {
        NoEnabledLine(lines);
        written := written + ["\n" + EnabledLine(enabled)];
      }
      slackEnabled := enabled;
    }
  }

  datatype SlackSettingsResponse = SlackSettingsResponse(channel: string, enabled: bool, configured: bool)

  /** A boolean as Python formats it. */
  function BoolText(b: bool): string {
    if b then "True" else "False"
  }

  const Key: string := "SLACK_ENABLED="

  /** A line that, once stripped, starts with `SLACK_ENABLED=`. */
  predicate IsEnabledLine(line: string) {
    Key <= Strip(line)
  }

  /** The line written for a value. */
  function EnabledLine(enabled: bool): string {
    Key + BoolText(enabled) + "\n"
  }

  /** The index of the first SLACK_ENABLED line, if any. */
  function FirstEnabledLine(lines: seq<string>): (r: Option<nat>)
    ensures r.Some? ==>
      r.value < |lines| && IsEnabledLine(lines[r.value])
      && forall j :: 0 <= j < r.value ==> !IsEnabledLine(lines[j])
    ensures r.None? ==> forall j :: 0 <= j < |lines| ==> !IsEnabledLine(lines[j])
  {
    if lines == [] then None
    else if IsEnabledLine(lines[0]) then Some(0)
    else
      match FirstEnabledLine(lines[1..])
      case None => None
      case Some(k) => Some(k + 1)
  }

  /** The rewritten file: the first SLACK_ENABLED line replaced, or, when there
      is none, a new one appended after a blank line. */
  function RewriteEnabled(lines: seq<string>, enabled: bool): seq<string> {
    match FirstEnabledLine(lines)
    case Some(i) => lines[i := EnabledLine(enabled)]
    case None => lines + ["\n" + EnabledLine(enabled)]
  }

  lemma {:induction false} FirstEnabledLineAt(lines: seq<string>, i: int)
    requires 0 <= i < |lines| && IsEnabledLine(lines[i])
    requires forall j :: 0 <= j < i ==> !IsEnabledLine(lines[j])
    ensures FirstEnabledLine(lines) == Some(i)
  {
    if i > 0 {
      var rest := lines[1..];
      assert !IsEnabledLine(lines[0]);
      forall j | 0 <= j < i - 1 ensures !IsEnabledLine(rest[j]) {
        assert rest[j] == lines[j + 1];
      }
      FirstEnabledLineAt(rest, i - 1);
    }
  }

  lemma NoEnabledLine(lines: seq<string>)
    requires forall j :: 0 <= j < |lines| ==> !IsEnabledLine(lines[j])
    ensures FirstEnabledLine(lines) == None
  {
  }

  /** When the file has a SLACK_ENABLED line, only the first one changes: the
      line count and every other line stay as they were. */
  lemma RewriteFound(lines: seq<string>, enabled: bool, i: int)
    requires 0 <= i < |lines| && IsEnabledLine(lines[i])
    requires forall j :: 0 <= j < i ==> !IsEnabledLine(lines[j])
    ensures |RewriteEnabled(lines, enabled)| == |lines|
    ensures RewriteEnabled(lines, enabled)[i] == EnabledLine(enabled)
    ensures forall j :: 0 <= j < |lines| && j != i ==> RewriteEnabled(lines, enabled)[j] == lines[j]
  {
    FirstEnabledLineAt(lines, i);
  }

  /** Without one, exactly one element is appended at the end. */
  lemma RewriteNotFound(lines: seq<string>, enabled: bool)
    requires forall j :: 0 <= j < |lines| ==> !IsEnabledLine(lines[j])
    ensures RewriteEnabled(lines, enabled) == lines + ["\nSLACK_ENABLED=" + BoolText(enabled) + "\n"]
  {
    NoEnabledLine(lines);
    assert "\n" + EnabledLine(enabled) == "\nSLACK_ENABLED=" + BoolText(enabled) + "\n";
  }

  /** The index of the last SLACK_ENABLED line, if any. */
  function LastEnabledLine(lines: seq<string>): (r: Option<nat>)
    ensures r.Some? ==>
      r.value < |lines| && IsEnabledLine(lines[r.value])
      && forall j :: r.value < j < |lines| ==> !IsEnabledLine(lines[j])
    ensures r.None? ==> forall j :: 0 <= j < |lines| ==> !IsEnabledLine(lines[j])
  {
    if lines == [] then None
    else if IsEnabledLine(lines[|lines| - 1]) then Some(|lines| - 1)
    else LastEnabledLine(lines[..|lines| - 1])
  }

  lemma {:induction false} LastEnabledLineAt(lines: seq<string>, i: int)
    requires 0 <= i < |lines| && IsEnabledLine(lines[i])
    requires forall j :: i < j < |lines| ==> !IsEnabledLine(lines[j])
    ensures LastEnabledLine(lines) == Some(i)
  {
    if i < |lines| - 1 {
      var init := lines[..|lines| - 1];
      assert !IsEnabledLine(lines[|lines| - 1]);
      forall j | i < j < |init| ensures !IsEnabledLine(init[j]) {
        assert init[j] == lines[j];
      }
      assert init[i] == lines[i];
      LastEnabledLineAt(init, i);
    }
  }

  /** The value the configuration loader reads at start-up: python-dotenv
      keeps the last assignment of a repeated key, so this is the text after
      the key on the last SLACK_ENABLED line, stripped. */
  function ReadEnabled(lines: seq<string>): Option<string> {
    match LastEnabledLine(lines)
    case Some(i) => Some(Strip(Strip(lines[i])[|Key|..]))
    case None => None
  }

  /** No two lines of the file are SLACK_ENABLED lines. */
  predicate AtMostOneEnabled(lines: seq<string>) {
    forall i, j :: 0 <= i < j < |lines| && IsEnabledLine(lines[i]) ==> !IsEnabledLine(lines[j])
  }

  /** Strip removes the leading newline and the trailing newline around a
      written value. */
  lemma StripWritten(enabled: bool)
    ensures Strip(EnabledLine(enabled)) == Key + BoolText(enabled)
    ensures Strip("\n" + EnabledLine(enabled)) == Key + BoolText(enabled)
  {
    var s := Key + BoolText(enabled);
    KeyLineBare(enabled);
    assert EnabledLine(enabled) == [] + s + "\n";
    assert "\n" + EnabledLine(enabled) == "\n" + s + "\n";
    assert AllSpace("\n");
    StripIgnoresPadding([], s, "\n");
    StripIgnoresPadding("\n", s, "\n");
  }

  /** `SLACK_ENABLED=<value>` has no whitespace to strip. */
  lemma KeyLineBare(enabled: bool)
    ensures Strip(Key + BoolText(enabled)) == Key + BoolText(enabled)
  {
    var s := Key + BoolText(enabled);
    assert s[0] == 'S' && s[|s| - 1] == 'e';
    DropLeadingOfTrimmed(s);
    assert DropTrailing(s) == s;
  }

  /** The value a written line reads back as. */
  lemma ReadWritten(enabled: bool)
    ensures Strip(EnabledLine(enabled)) == Key + BoolText(enabled)
      && Strip(Strip(EnabledLine(enabled))[|Key|..]) == BoolText(enabled)
    ensures Strip("\n" + EnabledLine(enabled)) == Key + BoolText(enabled)
      && Strip(Strip("\n" + EnabledLine(enabled))[|Key|..]) == BoolText(enabled)
  {
    var v := BoolText(enabled);
    StripWritten(enabled);
    assert (Key + v)[|Key|..] == v;
    assert v[0] == 'T' || v[0] == 'F';
    DropLeadingOfTrimmed(v);
    assert DropTrailing(v) == v;
  }

  /** With at most one SLACK_ENABLED line in the file, saving a value and
      reading the file back yields that value. With two or more the save
      rewrites the first and the loader reads the last
      (SaveMissesLaterDuplicate). */
  lemma SaveThenRead(lines: seq<string>, enabled: bool)
    ensures AtMostOneEnabled(lines) ==>
      ReadEnabled(RewriteEnabled(lines, enabled)) == Some(BoolText(enabled))
  {
    if AtMostOneEnabled(lines) {
      var w := RewriteEnabled(lines, enabled);
      match FirstEnabledLine(lines)
      case Some(i) =>
        assert w == lines[i := EnabledLine(enabled)];
        forall j | i < j < |w| ensures !IsEnabledLine(w[j]) {
          assert w[j] == lines[j];
        }
        ReadBackAt(w, i, enabled);
      case None =>
        assert w == lines + ["\n" + EnabledLine(enabled)];
        ReadBackAt(w, |lines|, enabled);
    }
  }

  /** A written line with no SLACK_ENABLED line after it is what the loader
      reads. */
  lemma ReadBackAt(w: seq<string>, i: int, enabled: bool)
    requires 0 <= i < |w|
    requires w[i] == EnabledLine(enabled) || w[i] == "\n" + EnabledLine(enabled)
    requires forall j :: i < j < |w| ==> !IsEnabledLine(w[j])
    ensures ReadEnabled(w) == Some(BoolText(enabled))
  {
    ReadWritten(enabled);
    LastEnabledLineAt(w, i);
  }

  /** A file with the line twice: switching notifications off rewrites the
      first copy only, and the loader still reads "True" from the second. */
  lemma SaveMissesLaterDuplicate()
    ensures var lines := [EnabledLine(true), EnabledLine(true)];
      !AtMostOneEnabled(lines)
      && ReadEnabled(lines) == Some("True")
      && ReadEnabled(RewriteEnabled(lines, false)) == Some("True")
  {
    var lines := [EnabledLine(true), EnabledLine(true)];
    StripWritten(true);
    StripWritten(false);
    ReadWritten(true);
    FirstEnabledLineAt(lines, 0);
    var w := RewriteEnabled(lines, false);
    assert w == [EnabledLine(false), EnabledLine(true)];
    LastEnabledLineAt(lines, 1);
    LastEnabledLineAt(w, 1);
  }

  /** The evidently intended save: every SLACK_ENABLED line carries the new
      value, or, when there is none, a new one is appended after a blank
      line. */
  function RewriteEveryEnabled(lines: seq<string>, enabled: bool): (r: seq<string>)
    ensures FirstEnabledLine(lines).None? ==> r == lines + ["\n" + EnabledLine(enabled)]
    ensures FirstEnabledLine(lines).Some? ==>
      |r| == |lines|
      && forall j :: 0 <= j < |lines| ==>
           r[j] == if IsEnabledLine(lines[j]) then EnabledLine(enabled) else lines[j]
  {
    if FirstEnabledLine(lines).None? then lines + ["\n" + EnabledLine(enabled)]
    else seq(|lines|, j requires 0 <= j < |lines| =>
               if IsEnabledLine(lines[j]) then EnabledLine(enabled) else lines[j])
  }

  /** Corrected, a save always reads back as the value saved. */
  lemma SaveEveryThenRead(lines: seq<string>, enabled: bool)
    ensures ReadEnabled(RewriteEveryEnabled(lines, enabled)) == Some(BoolText(enabled))
  {
    var w := RewriteEveryEnabled(lines, enabled);
    match LastEnabledLine(lines)
    case Some(i) =>
      forall j | i < j < |w| ensures !IsEnabledLine(w[j]) {
        assert w[j] == lines[j];
      }
      ReadBackAt(w, i, enabled);
    case None =>
      NoEnabledLine(lines);
      ReadBackAt(w, |lines|, enabled);
  }

  /** Where the file has at most one SLACK_ENABLED line, the corrected save
      writes exactly what the route writes. */
  lemma RewriteEveryAgrees(lines: seq<string>, enabled: bool)
    requires AtMostOneEnabled(lines)
    ensures RewriteEveryEnabled(lines, enabled) == RewriteEnabled(lines, enabled)
  {
    match FirstEnabledLine(lines)
    case Some(i) =>
      var a, b := RewriteEveryEnabled(lines, enabled), RewriteEnabled(lines, enabled);
      forall j | 0 <= j < |lines| ensures a[j] == b[j] {
        if j < i {
          assert !IsEnabledLine(lines[j]);
        } else if j > i {
          assert !IsEnabledLine(lines[j]);
        }
      }
    case None =>
  }

  /** A second save never appends another line: it rewrites the line the
      first save wrote, in place, and leaves every other line as it was. */
  lemma SaveTwiceInPlace(lines: seq<string>, first: bool, second: bool)
    ensures |RewriteEnabled(RewriteEnabled(lines, first), second)| == |RewriteEnabled(lines, first)|
    ensures forall j :: 0 <= j < |lines| && FirstEnabledLine(lines) != Some(j) ==>
      RewriteEnabled(RewriteEnabled(lines, first), second)[j] == lines[j]
  {
    var w := RewriteEnabled(lines, first);
    StripWritten(first);
    match FirstEnabledLine(lines)
    case Some(i) =>
      forall j | 0 <= j < i ensures !IsEnabledLine(w[j]) {
        assert w[j] == lines[j];
      }
      FirstEnabledLineAt(w, i);
    case None =>
      forall j | 0 <= j < |lines| ensures !IsEnabledLine(w[j]) {
        assert w[j] == lines[j];
      }
      FirstEnabledLineAt(w, |lines|);
  }
}
