/** The sign-in screen (components/LoginPage.tsx): the authentication
    outcome, the bounded profile fetch and the user record handed to the
    shell. */
module Login {
  import opened Wrappers
  import opened Types
  import opened Text
  import opened App

  /** What the password sign-in returned: an error with its message, a
      session for a user id, or neither. */
  datatype AuthReply = AuthError(message: string) | Session(userId: string) | NoSession

  /** The fetch budget (`retries = 3`). */
  const MaxAttempts: nat := 3

  /** The first query index in `[from, from + tries)` whose answer holds a
      profile. `answers(k)` is what the k-th profile query returns. */
  function FirstAnswered(answers: nat -> Option<ProfileRow>, from: nat, tries: nat): (r: Option<nat>)
    ensures r.Some? ==> from <= r.value < from + tries && answers(r.value).Some?
    ensures r.Some? ==> forall k :: from <= k < r.value ==> answers(k).None?
    ensures r.None? <==> forall k :: from <= k < from + tries ==> answers(k).None?
    decreases tries
  {
    if tries == 0 then None
    else if answers(from).Some? then Some(from)
    else FirstAnswered(answers, from + 1, tries - 1)
  }

  /** The first answered query is the one before which all failed. */
  lemma {:induction false} FirstAnsweredAt(answers: nat -> Option<ProfileRow>, from: nat, tries: nat, j: nat)
    requires from <= j < from + tries && answers(j).Some?
    requires forall k :: from <= k < j ==> answers(k).None?
    ensures FirstAnswered(answers, from, tries) == Some(j)
    decreases tries
  {
    if j != from {
      FirstAnsweredAt(answers, from + 1, tries - 1, j);
    }
  }

  /** The retry loop: queries until a profile arrives or the budget is
      spent; only a failed query costs a retry. Returns the profile, the
      number of queries made and the budget left. */
  method FetchProfile(answers: nat -> Option<ProfileRow>) returns (profile: Option<ProfileRow>, attempts: nat, retries: nat)
    ensures 1 <= attempts <= MaxAttempts
    ensures profile.Some? <==> FirstAnswered(answers, 0, MaxAttempts).Some?
    ensures profile.Some? ==> attempts == FirstAnswered(answers, 0, MaxAttempts).value + 1 && profile == answers(attempts - 1)
    ensures profile.None? ==> attempts == MaxAttempts && retries == 0
    ensures retries == MaxAttempts - (if profile.Some? then attempts - 1 else attempts)
  {
    profile := None;
    retries := MaxAttempts;
    attempts := 0;
    while retries > 0 && profile.None?
      invariant retries <= MaxAttempts
      invariant profile.None? ==> attempts == MaxAttempts - retries && forall k :: 0 <= k < attempts ==> answers(k).None?
      invariant profile.Some? ==>
        && 1 <= retries
        && 1 <= attempts
        && attempts == MaxAttempts - retries + 1
        && profile == answers(attempts - 1)
        && forall k :: 0 <= k < attempts - 1 ==> answers(k).None?
      decreases retries, if profile.None? then 1 else 0
    {
      var data := answers(attempts);
      attempts := attempts + 1;
      if data.Some? {
        profile := data;
      } else {
        retries := retries - 1;
      }
    }
    if profile.Some? {
      FirstAnsweredAt(answers, 0, MaxAttempts, attempts - 1);
    }
  }

  /** The user built from the fetched profile: every column but semester
      and section, which this mapping does not carry. */
  function LoginUser(row: ProfileRow): User
  {
    User(row.id, row.name, row.email, row.role, row.enrollment_id, None, None,
         row.avatar, row.bio, row.join_date, row.last_active,
         row.can_upload, row.is_submitted, row.is_verified)
  }

  /** The sign-in record agrees with the shell's `mapProfile` except that
      semester and section are absent. */
  lemma LoginUserVersusMapProfile(row: ProfileRow)
    ensures LoginUser(row) == MapProfile(row).(semester := None, section := None)
    ensures LoginUser(row) == MapProfile(row) <==> row.semester.None? && row.section.None?
  {
  }

  const DeniedPrefix: string := "ACCESS DENIED: "
  const NoProfileMessage: string := "PROFILE NOT INITIALIZED. CONTACT COMMANDER."

  function DeniedMessage(providerMessage: string): (r: string)
    ensures |r| == |DeniedPrefix| + |providerMessage|
    ensures r[..|DeniedPrefix|] == DeniedPrefix
    ensures forall i :: |DeniedPrefix| <= i < |r| ==> r[i] == UpperChar(providerMessage[i - |DeniedPrefix|])
  {
    DeniedPrefix + Upper(providerMessage)
  }

  /** An authentication failure and a missing profile never read alike. */
  lemma MessagesDiffer(providerMessage: string)
    ensures DeniedMessage(providerMessage) != NoProfileMessage
  {
    var m := DeniedMessage(providerMessage);
    if |m| >= 1 {
      assert m[0] == 'A' && NoProfileMessage[0] == 'P';
    }
  }

  class LoginPage {
    var isAuthenticating: bool
    var error: Option<string>

    constructor ()
      ensures !isAuthenticating && error.None?
    {
      isAuthenticating := false;
      error := None;
    }

    /** `handleLogin`: `reply` is the sign-in result and `answers` the
        profile queries' results for the session's user. Returns the user
        handed to the shell, if any, and the number of profile queries. */
    method HandleLogin(reply: AuthReply, answers: nat -> Option<ProfileRow>) returns (signedIn: Option<User>, queries: nat)
      modifies this
      ensures reply.AuthError? ==>
        signedIn.None? && queries == 0 && error == Some(DeniedMessage(reply.message)) && !isAuthenticating
      ensures reply.NoSession? ==> signedIn.None? && queries == 0 && error.None? && isAuthenticating
      ensures reply.Session? ==> 1 <= queries <= MaxAttempts
      ensures reply.Session? ==> (signedIn.Some? <==> FirstAnswered(answers, 0, MaxAttempts).Some?)
      ensures reply.Session? && signedIn.Some? ==>
        signedIn == Some(LoginUser(answers(FirstAnswered(answers, 0, MaxAttempts).value).value)) &&
        error.None? && isAuthenticating
      ensures reply.Session? && signedIn.None? ==>
        queries == MaxAttempts && error == Some(NoProfileMessage) && !isAuthenticating
    {
      isAuthenticating := true;
      error := None;
      signedIn := None;
      queries := 0;
      match reply {
        case AuthError(message) =>
          error := Some(DeniedMessage(message));
          isAuthenticating := false;
        case NoSession =>
        case Session(_) =>
          var profile, attempts, _ := FetchProfile(answers);
          queries := attempts;
          if profile.Some? {
            signedIn := Some(LoginUser(profile.value));
          } else {
            error := Some(NoProfileMessage);
            isAuthenticating := false;
          }
      }
    }
  }
}
