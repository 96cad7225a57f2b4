/**
 * How the Slack service meets the runtime settings. The transaction routes
 * build their `SlackService` once, when the module is imported, and the
 * service copies the token, the channel and the SLACK_ENABLED flag from the
 * settings object at that moment. The settings route later updates only the
 * settings object.
 */
module Wiring {
  import opened Wrappers
  import Slack
  import opened SettingsRoutes

  /** `SlackService()`: a service built from the settings as they are now. */
  function ServiceOf(s: Settings): (r: Slack.SlackService)
    reads s
    ensures r.IsConfigured() <==> s.slackEnabled && s.slackBotToken != ""
    ensures r.channel == s.slackChannel
  {
    Slack.SlackService(s.slackBotToken, s.slackChannel, s.slackEnabled)
  }

  /** As wired: the service is built at start-up with notifications on, then
      the client switches them off. The settings now report them off, yet
      the service built at start-up still posts every transaction whose post
      succeeds, until the process restarts. */
  method DisableAfterStartup(s: Settings, lines: seq<string>, posted: Option<bool>)
    returns (reported: bool, notified: bool)
    requires s.slackEnabled && s.slackBotToken != ""
    modifies s
    ensures !reported
    ensures notified <==> posted == Some(true)
  {
    var service := ServiceOf(s);
    var _ := s.SaveSlackSettings(lines, false);
    reported := s.GetSlackSettings().enabled;
    notified := Slack.SendTransactionNotification(service, posted);
  }

  /** Corrected: the service is built from the settings when a transaction
      is notified, so switching notifications off stops the post at once. */
  method DisableThenNotify(s: Settings, lines: seq<string>, posted: Option<bool>)
    returns (reported: bool, notified: bool)
    modifies s
    ensures !reported && !notified
  {
    var _ := s.SaveSlackSettings(lines, false);
    reported := s.GetSlackSettings().enabled;
    notified := Slack.SendTransactionNotification(ServiceOf(s), posted);
  }

  /** Corrected, a notification goes out only while the settings report
      notifications on. */
  lemma NotifiesOnlyWhenReportedOn(s: Settings, posted: Option<bool>)
    ensures Slack.SendTransactionNotification(ServiceOf(s), posted) ==>
      s.GetSlackSettings().enabled
  {
  }
}
