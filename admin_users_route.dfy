/**
 * The admin users endpoint (src/app/api/admin/users/route.ts): the bearer
 * token and admin-role gates, the listing of profiles, and the batch
 * creation of accounts with their profiles, one result per requested user
 * and a rollback of the account when its profile cannot be written.
 */
module AdminUsersRoute {
  import opened Wrappers
  import opened Text
  import opened SeqUtil
  import opened Schema
  import opened Store

  /** What the auth provider answers for the bearer token. */
  datatype AuthLookup = AuthFailed(message: string) | NoUser | SignedIn(userId: Id)

  /** One element of the request's `users` array; every field may be missing. */
  datatype UserInput = UserInput(email: Option<string>, role: Option<string>,
                                 stationId: Option<string>, password: Option<string>)

  /** The request's `users` field: an array, or something else. */
  datatype UsersField = UsersArray(users: seq<UserInput>) | NotAnArray

  /** What the auth provider answers when asked to create an account. */
  datatype CreateOutcome = CreateFailed(message: string) | CreatedAccount(id: Id)

  datatype UserResult =
    | Failed(email: string, error: string)
    | Succeeded(email: string, tempPassword: string, password: Option<string>)

  /** A JSON response: an error with its HTTP status, the created users' results, or the listed profiles. */
  datatype Response = Refused(status: nat, error: string) | Results(results: seq<UserResult>) | UserList(users: seq<UserProfile>)

  const REQUIRED_ERROR: string := "Email and role are required"
  const PASSWORD_SUFFIX: string := "A1!"

  /** JavaScript truthiness of an optional string. */
  predicate Truthy(s: Option<string>) { s.Some? && s.value != "" }

  // ---------------------------------------------------------------------
  // Gates

  /** `authHeader?.replace('Bearer ', '')` */
  function TokenOf(authHeader: Option<string>): (t: Option<string>)
    ensures t.None? <==> authHeader.None?
  {
    if authHeader.Some? then Some(ReplaceFirst(authHeader.value, "Bearer ", "")) else None
  }

  /** A `Bearer` header carries the text after the scheme as its token. */
  lemma BearerToken(token: string)
    ensures TokenOf(Some("Bearer " + token)) == Some(token)
  {
    var h := "Bearer " + token;
    assert OccursAt(h, "Bearer ", 0);
    assert IndexOf(h, "Bearer ") == Some(0);
    assert h[7..] == token;
    assert ReplaceFirst(h, "Bearer ", "") == h[..0] + "" + h[7..];
    assert h[..0] + "" + h[7..] == h[7..];
  }

  function IsProfileOf(userId: Id): UserProfile -> bool {
    (p: UserProfile) => p.authUserId == userId
  }

  /** The signed-in caller has exactly one profile, and it is an admin's. */
  predicate CallerIsAdmin(lookup: AuthLookup, profiles: seq<UserProfile>) {
    lookup.SignedIn? && Count(profiles, IsProfileOf(lookup.userId)) == 1 &&
    forall p :: p in profiles && p.authUserId == lookup.userId ==> p.role == RoleName(Admin)
  }

  /**
   * The checks `POST` makes before reading the body, in order: a token, a
   * signed-in user, exactly one profile (`.single()`), an admin role.
   * `profileErrorMessage` is the database's message when `.single()` fails.
   */
  function PostGate(authHeader: Option<string>, lookup: AuthLookup, profiles: seq<UserProfile>,
                    profileErrorMessage: string): (r: Option<Response>)
    ensures r.None? <==> Truthy(TokenOf(authHeader)) && CallerIsAdmin(lookup, profiles)
    ensures r.Some? ==> r.value.Refused? && r.value.status in {401, 403, 500}
    ensures !Truthy(TokenOf(authHeader)) ==> r == Some(Refused(401, "Unauthorized: No token provided"))
  {
    if !Truthy(TokenOf(authHeader)) then Some(Refused(401, "Unauthorized: No token provided"))
    else match lookup
      case AuthFailed(m) => Some(Refused(401, "Unauthorized: " + m))
      case NoUser => Some(Refused(401, "Unauthorized: Invalid token"))
      case SignedIn(id) =>
        match SingleIndex(profiles, IsProfileOf(id))
        case None => Some(Refused(500, "Profile error: " + profileErrorMessage))
        case Some(k) =>
          SingleIndexOnly(profiles, IsProfileOf(id), k);
          if profiles[k].role != RoleName(Admin) then
            Some(Refused(403, "Forbidden: Admin role required. Current role: " + OrElse(Some(profiles[k].role), "none")))
          else None
  }

  /** The only profile of `p`'s position, when it is the single row satisfying `q`. */
  lemma SingleIndexOnly<T>(s: seq<T>, q: T -> bool, k: nat)
    requires SingleIndex(s, q) == Some(k)
    ensures forall x :: x in s && q(x) ==> x == s[k]
  {
    forall x | x in s && q(x) ensures x == s[k] {
      var j :| 0 <= j < |s| && s[j] == x;
      if j != k {
        CountTwoAtLeast(s, q, j, k);
      }
    }
  }

  /** Two distinct positions satisfying `q` make the count at least two. */
  lemma CountTwoAtLeast<T>(s: seq<T>, q: T -> bool, j: nat, k: nat)
    requires j < |s| && k < |s| && j != k && q(s[j]) && q(s[k])
    ensures Count(s, q) >= 2
  {
    var lo, hi := if j < k then j else k, if j < k then k else j;
    assert s == s[..lo] + [s[lo]] + s[lo + 1..hi] + [s[hi]] + s[hi + 1..];
    FilterConcat(s[..lo] + [s[lo]] + s[lo + 1..hi] + [s[hi]], s[hi + 1..], q);
    FilterConcat(s[..lo] + [s[lo]] + s[lo + 1..hi], [s[hi]], q);
    FilterConcat(s[..lo] + [s[lo]], s[lo + 1..hi], q);
    FilterConcat(s[..lo], [s[lo]], q);
  }

  /** A signed-in caller whose one profile is not an admin's is refused with 403. */
  lemma NonAdminForbidden(authHeader: Option<string>, lookup: AuthLookup, profiles: seq<UserProfile>,
                          profileErrorMessage: string, k: nat)
    requires Truthy(TokenOf(authHeader)) && lookup.SignedIn?
    requires Count(profiles, IsProfileOf(lookup.userId)) == 1
    requires k < |profiles| && profiles[k].authUserId == lookup.userId && profiles[k].role != RoleName(Admin)
    ensures var r := PostGate(authHeader, lookup, profiles, profileErrorMessage);
      r.Some? && r.value.status == 403
  {
    var i := SingleIndex(profiles, IsProfileOf(lookup.userId));
    SingleIndexOnly(profiles, IsProfileOf(lookup.userId), i.value);
    assert profiles[k] in profiles;
  }

  /**
   * `GET`: the same token and role checks, except that a failed token
   * lookup and a missing or unreadable profile are not told apart; an admin
   * gets every profile, unless the listing query fails (`listError` is its
   * error message), which is thrown and answered with 500 and that message.
   */
  function ListUsers(authHeader: Option<string>, lookup: AuthLookup, profiles: seq<UserProfile>,
                     listError: Option<string>): (r: Response)
    ensures r.UserList? <==> Truthy(TokenOf(authHeader)) && CallerIsAdmin(lookup, profiles) && listError.None?
    ensures r.UserList? ==> r.users == profiles
    ensures r.Refused? && r.status == 500 <==>
      Truthy(TokenOf(authHeader)) && CallerIsAdmin(lookup, profiles) && listError.Some?
    ensures r.Refused? && r.status == 500 ==> r.error == listError.value
    ensures !r.UserList? ==> r.Refused? && r.status in {401, 403, 500}
  {
    if !Truthy(TokenOf(authHeader)) then Refused(401, "Unauthorized: No token provided")
    else if !lookup.SignedIn? then Refused(401, "Unauthorized: Invalid token")
    else match SingleIndex(profiles, IsProfileOf(lookup.userId))
      case None => Refused(403, "Forbidden")
      case Some(k) =>
        SingleIndexOnly(profiles, IsProfileOf(lookup.userId), k);
        if profiles[k].role != RoleName(Admin) then Refused(403, "Forbidden")
        else if listError.Some? then Refused(500, listError.value)
        else UserList(profiles)
  }

  // ---------------------------------------------------------------------
  // Batch creation

  /** `users` must be a non-empty array. */
  predicate BadUsersField(body: UsersField) { body.NotAnArray? || body.users == [] }

  /** `password || random + 'A1!'`; the random part is an input. */
  function TempPassword(password: Option<string>, randomPart: string): (pw: string)
    ensures Truthy(password) ==> pw == password.value
    ensures !Truthy(password) ==> |pw| >= 3 && pw[|pw| - 3..] == PASSWORD_SUFFIX
  {
    if Truthy(password) then password.value else randomPart + PASSWORD_SUFFIX
  }

  /** The profile written for a created account: verified, with the upper-cased role, and bound to change its password. */
  function NewProfile(accountId: Id, u: UserInput): UserProfile
    requires Truthy(u.email) && Truthy(u.role)
  {
    UserProfile(accountId, u.email.value, Upper(u.role.value), NonEmpty(u.stationId), true, true)
  }

  /** What one requested user leads to: the result reported, and the account and profile left behind. */
  datatype Step = Step(result: UserResult, account: Option<Id>, profile: Option<UserProfile>)

  /** One pass of the loop body, given the provider's and the database's answers. */
  function StepOf(u: UserInput, create: CreateOutcome, insertError: Option<string>, randomPart: string): Step {
    if !Truthy(u.email) || !Truthy(u.role) then
      Step(Failed(OrElse(u.email, "unknown"), REQUIRED_ERROR), None, None)
    else
      var pw := TempPassword(u.password, randomPart);
      match create
      case CreateFailed(m) => Step(Failed(u.email.value, m), None, None)
      case CreatedAccount(id) =>
        if insertError.Some? then Step(Failed(u.email.value, insertError.value), None, None)
        else Step(Succeeded(u.email.value, pw, if Truthy(u.password) then Some(pw) else None),
                  Some(id), Some(NewProfile(id, u)))
  }

  /** A user without an email or a role fails without an account being created. */
  lemma MissingFieldsFail(u: UserInput, create: CreateOutcome, insertError: Option<string>, randomPart: string)
    requires !Truthy(u.email) || !Truthy(u.role)
    ensures var st := StepOf(u, create, insertError, randomPart);
      st.result == Failed(OrElse(u.email, "unknown"), REQUIRED_ERROR) && st.account.None? && st.profile.None?
  {
  }

  /** A profile the database refuses takes its just-created account away again, and is reported with the database's message. */
  lemma RefusedProfileRollsBack(u: UserInput, id: Id, message: string, randomPart: string)
    requires Truthy(u.email) && Truthy(u.role)
    ensures var st := StepOf(u, CreatedAccount(id), Some(message), randomPart);
      st.result == Failed(u.email.value, message) && st.account.None? && st.profile.None?
  {
  }

  /**
   * A user succeeds exactly when both fields are present, the account is
   * created and the profile written; only then do an account and a profile
   * remain, the profile the account's own.
   */
  lemma StepSucceeds(u: UserInput, create: CreateOutcome, insertError: Option<string>, randomPart: string)
    ensures var st := StepOf(u, create, insertError, randomPart);
      (st.result.Succeeded? <==> Truthy(u.email) && Truthy(u.role) && create.CreatedAccount? && insertError.None?) &&
      (st.result.Succeeded? <==> st.account.Some?) && (st.account.Some? <==> st.profile.Some?) &&
      (st.result.Succeeded? ==>
        st.account == Some(create.id) && st.profile.value.authUserId == create.id &&
        st.profile.value.emailOrPhone == st.result.email == u.email.value &&
        st.profile.value.role == Upper(u.role.value) &&
        st.profile.value.isVerified && st.profile.value.mustChangePassword)
  {
  }

  /** A success hands back the provided password, or a generated one ending in "A1!"; the `password` field only when one was provided. */
  lemma SuccessPassword(u: UserInput, create: CreateOutcome, insertError: Option<string>, randomPart: string)
    requires StepOf(u, create, insertError, randomPart).result.Succeeded?
    ensures var r := StepOf(u, create, insertError, randomPart).result;
      (Truthy(u.password) ==> r.tempPassword == u.password.value && r.password == Some(u.password.value)) &&
      (!Truthy(u.password) ==> r.tempPassword[|r.tempPassword| - 3..] == PASSWORD_SUFFIX && r.password.None?)
  {
  }

  /** Any capitalisation of a role's stored name is stored as that name. */
  lemma UpperCasedRole(role: UserRole, s: string)
    requires |s| == |RoleName(role)|
    requires forall i :: 0 <= i < |s| ==> s[i] == RoleName(role)[i] || s[i] == LowerChar(RoleName(role)[i])
    ensures Upper(s) == RoleName(role)
  {
    var name := RoleName(role);
    assert forall i :: 0 <= i < |name| ==> IsAsciiUpper(name[i]) || name[i] == '_';
    forall i | 0 <= i < |s| ensures Upper(s)[i] == name[i] {
      assert UpperChar(LowerChar(name[i])) == name[i];
    }
  }

  function Steps(users: seq<UserInput>, create: nat -> CreateOutcome, insertError: nat -> Option<string>,
                 randomPart: nat -> string): (r: seq<Step>)
    ensures |r| == |users|
    ensures forall i :: 0 <= i < |users| ==> r[i] == StepOf(users[i], create(i), insertError(i), randomPart(i))
  {
    seq(|users|, i requires 0 <= i < |users| => StepOf(users[i], create(i), insertError(i), randomPart(i)))
  }

  function AccountSeq(st: Step): seq<Id> {
    if st.account.Some? then [st.account.value] else []
  }

  function ProfileSeq(st: Step): seq<UserProfile> {
    if st.profile.Some? then [st.profile.value] else []
  }

  predicate HasAccount(st: Step) { st.account.Some? }

  /** The accounts the steps leave, in order. */
  function AccountsOf(steps: seq<Step>): (r: seq<Id>)
    ensures |r| <= |steps|
  {
    if steps == [] then []
    else AccountsOf(steps[..|steps| - 1]) + AccountSeq(steps[|steps| - 1])
  }

  /**
   * The steps leave one account for each step that has one, and each of
   * them is the account of some step.
   */
  lemma {:induction false} AccountsOfSteps(steps: seq<Step>)
    ensures |AccountsOf(steps)| == Count(steps, HasAccount)
    ensures forall k :: 0 <= k < |AccountsOf(steps)| ==>
      exists i :: 0 <= i < |steps| && steps[i].account == Some(AccountsOf(steps)[k])
    ensures forall i :: 0 <= i < |steps| && steps[i].account.Some? ==> steps[i].account.value in AccountsOf(steps)
  {
    if steps != [] {
      var init := steps[..|steps| - 1];
      var last := steps[|steps| - 1];
      AccountsOfSteps(init);
      assert init + [last] == steps;
      CountAppend(init, last, HasAccount);
      var r := AccountsOf(steps);
      assert r == AccountsOf(init) + AccountSeq(last);
      forall k | 0 <= k < |r|
        ensures exists i :: 0 <= i < |steps| && steps[i].account == Some(r[k])
      {
        if k < |AccountsOf(init)| {
          var i :| 0 <= i < |init| && init[i].account == Some(AccountsOf(init)[k]);
          assert steps[i] == init[i];
        } else {
          assert steps[|steps| - 1].account == Some(r[k]);
        }
      }
      forall i | 0 <= i < |steps| && steps[i].account.Some? ensures steps[i].account.value in r {
        if i < |init| {
          assert init[i] == steps[i];
        }
      }
    }
  }

  predicate HasProfile(st: Step) { st.profile.Some? }

  /** The profiles the steps leave, in order. */
  function ProfilesOf(steps: seq<Step>): (r: seq<UserProfile>)
    ensures |r| <= |steps|
  {
    if steps == [] then []
    else ProfilesOf(steps[..|steps| - 1]) + ProfileSeq(steps[|steps| - 1])
  }

  /**
   * The steps leave one profile for each step that has one, and each of
   * them is the profile of some step.
   */
  lemma {:induction false} ProfilesOfSteps(steps: seq<Step>)
    ensures |ProfilesOf(steps)| == Count(steps, HasProfile)
    ensures forall k :: 0 <= k < |ProfilesOf(steps)| ==>
      exists i :: 0 <= i < |steps| && steps[i].profile == Some(ProfilesOf(steps)[k])
    ensures forall i :: 0 <= i < |steps| && steps[i].profile.Some? ==> steps[i].profile.value in ProfilesOf(steps)
  {
    if steps != [] {
      var init := steps[..|steps| - 1];
      var last := steps[|steps| - 1];
      ProfilesOfSteps(init);
      assert init + [last] == steps;
      CountAppend(init, last, HasProfile);
      var r := ProfilesOf(steps);
      assert r == ProfilesOf(init) + ProfileSeq(last);
      forall k | 0 <= k < |r|
        ensures exists i :: 0 <= i < |steps| && steps[i].profile == Some(r[k])
      {
        if k < |ProfilesOf(init)| {
          var i :| 0 <= i < |init| && init[i].profile == Some(ProfilesOf(init)[k]);
          assert steps[i] == init[i];
        } else {
          assert steps[|steps| - 1].profile == Some(r[k]);
        }
      }
      forall i | 0 <= i < |steps| && steps[i].profile.Some? ensures steps[i].profile.value in r {
        if i < |init| {
          assert init[i] == steps[i];
        }
      }
    }
  }

  /** The i-th result names the i-th requested user's email, or "unknown" when it has none. */
  lemma ResultsFollowInput(users: seq<UserInput>, create: nat -> CreateOutcome, insertError: nat -> Option<string>,
                           randomPart: nat -> string)
    ensures var steps := Steps(users, create, insertError, randomPart);
      forall i :: 0 <= i < |users| ==> steps[i].result.email == OrElse(users[i].email, "unknown")
  {
  }

  /** Each step leaves an account exactly when it leaves a profile, and the profile is that account's. */
  predicate Paired(st: Step) {
    (st.account.Some? <==> st.profile.Some?) &&
    (st.profile.Some? ==> st.profile.value.authUserId == st.account.value)
  }

  /** Every pass of the loop leaves its account and its profile paired. */
  lemma StepsPaired(users: seq<UserInput>, create: nat -> CreateOutcome, insertError: nat -> Option<string>,
                    randomPart: nat -> string)
    ensures forall i :: 0 <= i < |users| ==> Paired(Steps(users, create, insertError, randomPart)[i])
  {
    forall i | 0 <= i < |users| ensures Paired(Steps(users, create, insertError, randomPart)[i]) {
      StepSucceeds(users[i], create(i), insertError(i), randomPart(i));
    }
  }

  /** Paired steps leave as many accounts as profiles, the k-th profile belonging to the k-th account. */
  lemma {:induction false} ProfilesMatchAccounts(steps: seq<Step>)
    requires forall i :: 0 <= i < |steps| ==> Paired(steps[i])
    ensures |AccountsOf(steps)| == |ProfilesOf(steps)|
    ensures forall k :: 0 <= k < |ProfilesOf(steps)| ==> ProfilesOf(steps)[k].authUserId == AccountsOf(steps)[k]
  {
    if steps != [] {
      ProfilesMatchAccounts(steps[..|steps| - 1]);
      assert Paired(steps[|steps| - 1]);
    }
  }

  /** Taking one more step adds that step's account and profile. */
  lemma StepsSnoc(steps: seq<Step>, i: nat)
    requires i < |steps|
    ensures AccountsOf(steps[..i + 1]) == AccountsOf(steps[..i]) + AccountSeq(steps[i])
    ensures ProfilesOf(steps[..i + 1]) == ProfilesOf(steps[..i]) + ProfileSeq(steps[i])
  {
    assert steps[..i + 1][..i] == steps[..i];
  }

  /** After the first steps: their results were reported, their accounts and profiles added. */
  predicate Reached(results: seq<UserResult>, accounts: seq<Id>, profiles: seq<UserProfile>,
                    accounts0: seq<Id>, profiles0: seq<UserProfile>, done: seq<Step>) {
    |results| == |done| && (forall j :: 0 <= j < |done| ==> results[j] == done[j].result) &&
    accounts == accounts0 + AccountsOf(done) && profiles == profiles0 + ProfilesOf(done)
  }

  /** Reporting one more step's result and adding its account and profile reaches one step further. */
  lemma ReachedSnoc(results: seq<UserResult>, result: UserResult, accounts: seq<Id>, profiles: seq<UserProfile>,
                    accounts0: seq<Id>, profiles0: seq<UserProfile>, steps: seq<Step>, i: nat)
    requires i < |steps| && result == steps[i].result
    requires Reached(results, accounts, profiles, accounts0, profiles0, steps[..i])
    ensures Reached(results + [result], accounts + AccountSeq(steps[i]), profiles + ProfileSeq(steps[i]),
                    accounts0, profiles0, steps[..i + 1])
  {
    StepsSnoc(steps, i);
  }

  /** One pass of the loop: create the account, write its profile, or roll the account back. */
  method CreateUser(db: Database, u: UserInput, create: CreateOutcome, insertError: Option<string>, randomPart: string)
    returns (result: UserResult)
    modifies db
    ensures var st := StepOf(u, create, insertError, randomPart);
      result == st.result &&
      db.authUsers == old(db.authUsers) + AccountSeq(st) && db.profiles == old(db.profiles) + ProfileSeq(st)
    ensures db.stations == old(db.stations) && db.statuses == old(db.statuses)
    ensures db.contributions == old(db.contributions) && db.alerts == old(db.alerts)
  {
    if !Truthy(u.email) || !Truthy(u.role) {
      return Failed(OrElse(u.email, "unknown"), REQUIRED_ERROR);
    }
    var email := u.email.value;
    var defaultPassword := TempPassword(u.password, randomPart);
    if create.CreateFailed? {
      return Failed(email, create.message);
    }
    var accountId := create.id;
    db.authUsers := db.authUsers + [accountId];
    if insertError.Some? {
      // the rollback: the account just created is deleted again
      db.authUsers := db.authUsers[..|db.authUsers| - 1];
      return Failed(email, insertError.value);
    }
    db.profiles := db.profiles + [NewProfile(accountId, u)];
    result := Succeeded(email, defaultPassword, if Truthy(u.password) then Some(defaultPassword) else None);
  }

  /**
   * The loop of `POST`: one pass per requested user, in order. `create`,
   * `insertError` and `randomPart` give, by the user's position, the
   * provider's answer to the creation, the database's answer to the profile
   * insert, and the random part of a generated password.
   */
  method CreateUsers(db: Database, users: seq<UserInput>, create: nat -> CreateOutcome,
                     insertError: nat -> Option<string>, randomPart: nat -> string) returns (results: seq<UserResult>)
    modifies db
    ensures var steps := Steps(users, create, insertError, randomPart);
      |results| == |users| &&
      (forall i :: 0 <= i < |results| ==> results[i] == steps[i].result) &&
      db.authUsers == old(db.authUsers) + AccountsOf(steps) &&
      db.profiles == old(db.profiles) + ProfilesOf(steps)
    ensures db.stations == old(db.stations) && db.statuses == old(db.statuses)
    ensures db.contributions == old(db.contributions) && db.alerts == old(db.alerts)
  {
    ghost var steps := Steps(users, create, insertError, randomPart);
    ghost var accounts0, profiles0 := db.authUsers, db.profiles;
    results := [];
    for i := 0 to |users|
      invariant Reached(results, db.authUsers, db.profiles, accounts0, profiles0, steps[..i])
      invariant db.stations == old(db.stations) && db.statuses == old(db.statuses)
      invariant db.contributions == old(db.contributions) && db.alerts == old(db.alerts)
    {
      ghost var accounts, profiles := db.authUsers, db.profiles;
      var result := CreateUser(db, users[i], create(i), insertError(i), randomPart(i));
      assert steps[i] == StepOf(users[i], create(i), insertError(i), randomPart(i));
      ReachedSnoc(results, result, accounts, profiles, accounts0, profiles0, steps, i);
      results := results + [result];
    }
    assert steps[..|users|] == steps;
  }

  /** `POST`: the gates, the body check, then the loop over the requested users. */
  method Post(db: Database, authHeader: Option<string>, lookup: AuthLookup, profileErrorMessage: string,
              body: UsersField, create: nat -> CreateOutcome, insertError: nat -> Option<string>,
              randomPart: nat -> string) returns (resp: Response)
    modifies db
    ensures db.stations == old(db.stations) && db.statuses == old(db.statuses)
    ensures db.contributions == old(db.contributions) && db.alerts == old(db.alerts)
    ensures PostGate(authHeader, lookup, old(db.profiles), profileErrorMessage).Some? ==>
      resp == PostGate(authHeader, lookup, old(db.profiles), profileErrorMessage).value &&
      db.authUsers == old(db.authUsers) && db.profiles == old(db.profiles)
    ensures PostGate(authHeader, lookup, old(db.profiles), profileErrorMessage).None? && BadUsersField(body) ==>
      resp == Refused(400, "Invalid users array") &&
      db.authUsers == old(db.authUsers) && db.profiles == old(db.profiles)
    ensures PostGate(authHeader, lookup, old(db.profiles), profileErrorMessage).None? && !BadUsersField(body) ==>
      var steps := Steps(body.users, create, insertError, randomPart);
      resp.Results? && |resp.results| == |body.users| &&
      (forall i :: 0 <= i < |resp.results| ==> resp.results[i] == steps[i].result) &&
      db.authUsers == old(db.authUsers) + AccountsOf(steps) &&
      db.profiles == old(db.profiles) + ProfilesOf(steps)
  {
    var gate := PostGate(authHeader, lookup, db.profiles, profileErrorMessage);
    if gate.Some? {
      return gate.value;
    }
    if BadUsersField(body) {
      return Refused(400, "Invalid users array");
    }
    var results := CreateUsers(db, body.users, create, insertError, randomPart);
    resp := Results(results);
  }
}
