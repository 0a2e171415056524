/** `POST /api/auth/login`: checks a technician's login and password and
    answers with the public part of the account. */
module Login {
  import opened Common
  import opened Store
  import opened Technicians

  datatype Credentials = Credentials(id: Option<string>, password: Option<string>)

  /** What a successful login answers with: the password is not part of it. */
  datatype Profile = Profile(id: string, name: string, team: string)

  /** `findOne({id})`: the first technician holding the login. */
  function LoginIs(login: string): Doc<Technician> -> bool {
    (d: Doc<Technician>) => d.body.login == login
  }

  /** The decision chain: 400 if either field is missing or empty, 401 if
      no technician has the login, 401 if the first one that has it stores
      another password, otherwise that technician's profile. */
  function SignIn(techs: seq<Doc<Technician>>, cred: Credentials): (r: Response<Profile>)
    ensures r == Fail(BadRequest) <==> !Truthy(cred.id) || !Truthy(cred.password)
    ensures Truthy(cred.id) && Truthy(cred.password) && FirstMatch(techs, LoginIs(cred.id.value)).None? ==>
      r == Fail(Unauthorized)
    ensures Truthy(cred.id) && Truthy(cred.password) ==>
      match FirstMatch(techs, LoginIs(cred.id.value))
      case None => r == Fail(Unauthorized)
      case Some(k) =>
        if techs[k].body.password == cred.password.value
        then r == Ok(Profile(techs[k].body.login, techs[k].body.name, techs[k].body.team))
        else r == Fail(Unauthorized)
    ensures r.Ok? ==> Truthy(cred.id) && r.data.id == cred.id.value
  {
    if !Truthy(cred.id) || !Truthy(cred.password) then Fail(BadRequest)
    else match FirstMatch(techs, LoginIs(cred.id.value))
      case None => Fail(Unauthorized)
      case Some(k) =>
        var t := techs[k].body;
        if t.password != cred.password.value then Fail(Unauthorized)
        else Ok(Profile(t.login, t.name, t.team))
  }

  /** With logins unique, a login succeeds exactly when some technician has
      that login and that password, and then the answer is that
      technician's id, name and team. */
  lemma SignInIff(techs: seq<Doc<Technician>>, cred: Credentials)
    requires UniqueLogins(techs)
    requires Truthy(cred.id) && Truthy(cred.password)
    ensures SignIn(techs, cred).Ok? <==>
      exists k :: 0 <= k < |techs| && techs[k].body.login == cred.id.value && techs[k].body.password == cred.password.value
    ensures forall k :: 0 <= k < |techs| && techs[k].body.login == cred.id.value && techs[k].body.password == cred.password.value ==>
      SignIn(techs, cred) == Ok(Profile(cred.id.value, techs[k].body.name, techs[k].body.team))
  {
    var login := cred.id.value;
    forall k | 0 <= k < |techs| && techs[k].body.login == login
      ensures FirstMatch(techs, LoginIs(login)) == Some(k)
    {
      assert LoginIs(login)(techs[k]);
      var f := FirstMatch(techs, LoginIs(login));
      assert f.Some?;
    }
  }

  /** Two collections that differ only in the password of the technician a
      login finds get the same answer to that technician's right password:
      nothing of the password reaches the answer. */
  lemma ProfileHasNoPassword(techs: seq<Doc<Technician>>, k: nat, other: string, cred: Credentials)
    requires Truthy(cred.id) && Truthy(cred.password) && other != ""
    requires FirstMatch(techs, LoginIs(cred.id.value)) == Some(k)
    requires k < |techs| && techs[k].body.password == cred.password.value
    ensures SignIn(techs, cred) == Ok(Profile(techs[k].body.login, techs[k].body.name, techs[k].body.team))
    ensures SignIn(techs, cred) == SignIn(techs[k := techs[k].(body := techs[k].body.(password := other))], cred.(password := Some(other)))
  {
    var p := LoginIs(cred.id.value);
    var techs' := techs[k := techs[k].(body := techs[k].body.(password := other))];
    assert p(techs'[k]);
    forall j | 0 <= j < k
      ensures !p(techs'[j])
    {
      assert techs'[j] == techs[j];
    }
    var f := FirstMatch(techs', p);
    assert f.Some? && f.value == k;
  }
}
