/**
 * The Slack service's decision rules: when the service counts as configured,
 * how a person's name is matched against the workspace's user list, how a user
 * is mentioned, and when a transaction notification is attempted. The Slack
 * web API is not modelled: the user list and the send result are inputs.
 */
module Slack {
  import opened Wrappers
  import opened Text

  /** The service's settings, read once when it is built. A client object is
      created only when a token is set. */
  datatype SlackService = SlackService(token: string, channel: string, enabled: bool)
  {
    predicate HasClient() {
      token != ""
    }

    /** `is_configured`: enabled, with a token and a client. */
    predicate IsConfigured() {
      enabled && token != "" && HasClient()
    }
  }

  /** Without a token there is no client, so the service is never configured;
      with one, being configured is the same as being enabled. */
  lemma IsConfiguredIff(s: SlackService)
    ensures s.IsConfigured() <==> s.enabled && s.token != ""
    ensures !s.HasClient() ==> !s.IsConfigured()
  {
  }

  /** A workspace member as the user list reports it; a missing `real_name` or
      `display_name` is the empty string. */
  datatype SlackUser = SlackUser(id: string, realName: string, displayName: string)

  /** The lower-cased query occurs in the member's lower-cased real name or
      display name. */
  predicate Matches(u: SlackUser, nameLower: string) {
    Contains(Lower(u.realName), nameLower) || Contains(Lower(u.displayName), nameLower)
  }

  /** The id of the first member, in list order, that matches. */
  function FirstMatch(users: seq<SlackUser>, nameLower: string): (r: Option<string>)
    ensures r.None? <==> forall i :: 0 <= i < |users| ==> !Matches(users[i], nameLower)
    ensures r.Some? ==> exists i :: 0 <= i < |users| && FirstMatchAt(users, nameLower, i)
                                   && users[i].id == r.value
  {
    if users == [] then None
    else if Matches(users[0], nameLower) then
      assert FirstMatchAt(users, nameLower, 0);
      Some(users[0].id)
    else
      var r := FirstMatch(users[1..], nameLower);
      if r.Some? then
        var i :| 0 <= i < |users[1..]| && FirstMatchAt(users[1..], nameLower, i)
                 && users[1..][i].id == r.value;
        assert FirstMatchAt(users, nameLower, i + 1);
        r
      else
        r
  }

  /** Member `i` matches and no earlier member does. */
  predicate FirstMatchAt(users: seq<SlackUser>, nameLower: string, i: int) {
    0 <= i < |users| && Matches(users[i], nameLower)
    && forall j :: 0 <= j < i ==> !Matches(users[j], nameLower)
  }

  /** `find_user_by_name`: None when the service is not configured (the list is
      not consulted) or when listing users failed (`users` is None); otherwise
      the first member matching the lower-cased name. */
  function FindUserByName(s: SlackService, users: Option<seq<SlackUser>>, name: string)
    : (r: Option<string>)
    ensures !s.IsConfigured() || users.None? ==> r.None?
    ensures s.IsConfigured() && users.Some? ==> r == FirstMatch(users.value, Lower(name))
  {
    if !s.IsConfigured() then None
    else match users
      case None => None
      case Some(us) => FirstMatch(us, Lower(name))
  }

  /** The first matching member is the one found, wherever later matches are:
      a found id belongs to a matching member with no matching member before
      it. */
  lemma FindUserByNameFirst(s: SlackService, users: seq<SlackUser>, name: string, k: int)
    requires s.IsConfigured()
    requires FirstMatchAt(users, Lower(name), k)
    ensures FindUserByName(s, Some(users), name) == Some(users[k].id)
  {
    var r := FirstMatch(users, Lower(name));
    var i :| 0 <= i < |users| && FirstMatchAt(users, Lower(name), i) && users[i].id == r.value;
    assert !(i < k) && !(k < i);
  }

  /** Names differing only in case find the same member. */
  lemma {:induction false} FindUserByNameIgnoresCase(s: SlackService, users: Option<seq<SlackUser>>,
                                                     name: string)
    ensures FindUserByName(s, users, Lower(name)) == FindUserByName(s, users, name)
  {
    LowerIdempotent(name);
  }

  /** `get_user_mention`: a Slack mention for a non-empty id, else the
      fallback name. */
  function UserMention(userId: Option<string>, fallbackName: string): (r: string)
    ensures userId.Some? && userId.value != "" ==> |r| == |userId.value| + 3
    ensures userId.None? || userId.value == "" ==> r == fallbackName
  {
    if userId.Some? && userId.value != "" then "<@" + userId.value + ">" else fallbackName
  }

  /** Reading a mention back: the id between `<@` and `>`. */
  function MentionedId(m: string): Option<string> {
    if |m| >= 3 && m[..2] == "<@" && m[|m| - 1] == '>' then Some(m[2..|m| - 1]) else None
  }

  /** A mention names the id it was built from; the fallback is returned
      unchanged, so it reads back as a mention only if the name itself looks
      like one. */
  lemma UserMentionRoundTrip(userId: Option<string>, fallbackName: string)
    ensures userId.Some? && userId.value != "" ==>
      MentionedId(UserMention(userId, fallbackName)) == Some(userId.value)
    ensures userId.None? || userId.value == "" ==>
      MentionedId(UserMention(userId, fallbackName)) == MentionedId(fallbackName)
  {
    if userId.Some? && userId.value != "" {
      var m := UserMention(userId, fallbackName);
      assert m[..2] == "<@";
      assert m[2..|m| - 1] == userId.value;
    }
  }

  /** The action shown in a notification. */
  function ActionLabel(tipo: string): (r: string)
    ensures r == "RETIRADA" || r == "DEVOLUÇÃO"
  {
    if tipo == "retirada" then "RETIRADA" else "DEVOLUÇÃO"
  }

  /** Only a check-out is labelled RETIRADA; every other type, including an
      unexpected one, is labelled as a return. */
  lemma ActionLabelIff(tipo: string)
    ensures ActionLabel(tipo) == "RETIRADA" <==> tipo == "retirada"
    ensures ActionLabel(tipo) == "DEVOLUÇÃO" <==> tipo != "retirada"
  {
  }

  /** `send_transaction_notification`: False without sending when the service
      is not configured; otherwise the `ok` flag of the post, or False when the
      post raised an API error (`posted` is None). The message text is not
      modelled. */
  function SendTransactionNotification(s: SlackService, posted: Option<bool>): (r: bool)
    ensures r <==> s.IsConfigured() && posted == Some(true)
  {
    if !s.IsConfigured() then false
    else match posted
      case None => false
      case Some(ok) => ok
  }
}
