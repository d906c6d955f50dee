/** The in-memory user directory: an ordered list of users that grows by
    appending, a credential lookup and a conversion to a map keyed by id. */
module UserServices {
  import opened Wrappers
  import opened Users

  /** The exception `login` throws when a credential is missing. */
  datatype LoginError = IllegalArgument(message: string)

  const NullCredentialsMessage: string := "Username or password is null!"

  /** The exception `toMap` throws when two users share an id: the key, the
      value already stored under it and the value that collided with it. */
  datatype ConversionError = DuplicateKey(id: Int32, existing: User, incoming: User)

  /** Both filters of the login pipeline: exact name and exact password. */
  predicate Matches(u: User, name: string, password: string)
  {
    u.name == name && u.password == password
  }

  /** No two users of the list carry the same id. */
  predicate DistinctIds(users: seq<User>)
  {
    forall i, j :: 0 <= i < j < |users| ==> users[i].id != users[j].id
  }

  /** The ids of the stored users. */
  function Ids(users: seq<User>): set<Int32>
  {
    set u | u in users :: u.id
  }

  /** The stream pipeline `filter(name).filter(password).findAny()`. Any
      matching user may be returned: the contract does not say which one. */
  function FindAny(users: seq<User>, name: string, password: string): (r: Option<User>)
    ensures r.Some? ==> r.value in users && Matches(r.value, name, password)
    ensures r.None? <==> !exists u :: u in users && Matches(u, name, password)
  {
    if |users| == 0 then None
    else if Matches(users[0], name, password) then Some(users[0])
    else FindAny(users[1..], name, password)
  }

  /** The collector `toMap(User::getId, identity())`, run over the list in
      order: each user is put under its id, and the first id met a second time
      fails the whole conversion. */
  function ToMapById(users: seq<User>): (r: Result<map<Int32, User>, ConversionError>)
    ensures r.Success? <==> DistinctIds(users)
    ensures r.Success? ==> r.value.Keys == Ids(users)
    ensures r.Success? ==> forall i :: 0 <= i < |users| ==> r.value[users[i].id] == users[i]
    ensures r.Failure? ==>
      exists i, j :: 0 <= i < j < |users| && DistinctIds(users[..j])
        && users[i] == r.error.existing && users[j] == r.error.incoming
        && users[i].id == r.error.id && users[j].id == r.error.id
    decreases |users|
  {
    if |users| == 0 then Success(map[])
    else
      var front, last := users[..|users| - 1], users[|users| - 1];
      assert users == front + [last];
      match ToMapById(front)
      case Failure(e) =>
        assert forall k :: 0 <= k <= |front| ==> front[..k] == users[..k];
        Failure(e)
      case Success(m) =>
        if last.id in m then
          assert exists i :: 0 <= i < |front| && front[i].id == last.id;
          assert front == users[..|users| - 1];
          Failure(DuplicateKey(last.id, m[last.id], last))
        else
          assert forall i :: 0 <= i < |front| ==> front[i].id != last.id by {
            forall i | 0 <= i < |front| ensures front[i].id != last.id {
              assert front[i] in front;
            }
          }
          Success(m[last.id := last])
  }

  /** The user service: a mutable list of users. */
  class UserService {
    var users: seq<User>

    /** A new service holds no users. */
    constructor ()
      ensures users == []
    {
      users := [];
    }

    /** `findAll`: the stored users, in the order they were added. */
    function FindAll(): (r: seq<User>)
      reads this
      ensures r == users
    {
      users
    }

    /** `add(User...)`: appends the arguments in order; the result reports
        whether the list changed, as `addAll` does. */
    method Add(us: seq<User>) returns (changed: bool)
      modifies this
      ensures users == old(users) + us
      ensures changed <==> |us| > 0
    {
      changed := |us| > 0;
      users := users + us;
    }

    /** `login(name, password)`: a missing (null) credential raises
        IllegalArgumentException before any scan; otherwise some stored user
        with that exact name and password, or empty when there is none. */
    function Login(name: Option<string>, password: Option<string>): (r: Result<Option<User>, LoginError>)
      reads this
      ensures r.Failure? <==> name.None? || password.None?
      ensures r.Failure? ==> r.error == IllegalArgument(NullCredentialsMessage)
      ensures r.Success? && r.value.Some? ==>
        r.value.value in users && Matches(r.value.value, name.value, password.value)
      ensures r.Success? ==>
        (r.value.None? <==> !exists u :: u in users && Matches(u, name.value, password.value))
    {
      if name.None? || password.None? then Failure(IllegalArgument(NullCredentialsMessage))
      else Success(FindAny(users, name.value, password.value))
    }

    /** `getAllConvertedById`: every stored user under its id, or the
        duplicate-key failure when two stored users share an id. */
    function GetAllConvertedById(): (r: Result<map<Int32, User>, ConversionError>)
      reads this
      ensures r.Success? <==> DistinctIds(users)
      ensures r.Success? ==> r.value.Keys == Ids(users) && r.value.Values == set u | u in users
      ensures r.Success? ==> forall u :: u in users ==> r.value[u.id] == u
      ensures r.Failure? ==>
        exists i, j :: 0 <= i < j < |users| && DistinctIds(users[..j])
          && users[i] == r.error.existing && users[j] == r.error.incoming
          && users[i].id == r.error.id && users[j].id == r.error.id
    {
      var r := ToMapById(users);
      if r.Success? then ConvertedValues(users, r.value); r else r
    }
  }

  /** After a successful conversion the map's values are exactly the stored
      users (what the test checks with `containsValues`). */
  lemma ConvertedValues(users: seq<User>, m: map<Int32, User>)
    requires ToMapById(users) == Success(m)
    ensures m.Values == set u | u in users
    ensures forall u :: u in users ==> m[u.id] == u
  {
  }

  /** A stored user can always log in with its own credentials; when no other
      stored user shares them, login returns exactly that user. */
  lemma StoredUserLogsIn(users: seq<User>, u: User)
    requires u in users
    ensures FindAny(users, u.name, u.password).Some?
    ensures (forall v :: v in users && Matches(v, u.name, u.password) ==> v == u) ==>
      FindAny(users, u.name, u.password) == Some(u)
  {
  }

  /** Adding users never makes an earlier successful login fail. */
  lemma LoginSurvivesAdd(users: seq<User>, us: seq<User>, name: string, password: string)
    requires FindAny(users, name, password).Some?
    ensures FindAny(users + us, name, password).Some?
  {
  }

  /** Once the conversion fails, adding more users never repairs it. */
  lemma {:induction false} ConversionFailurePersists(users: seq<User>, us: seq<User>)
    requires !DistinctIds(users)
    ensures ToMapById(users).Failure? && ToMapById(users + us).Failure?
  {
    var i, j :| 0 <= i < j < |users| && users[i].id == users[j].id;
    assert (users + us)[i] == users[i] && (users + us)[j] == users[j];
  }

  /** The ids of a concatenation are the ids of its two parts. */
  lemma IdsOfAppend(users: seq<User>, us: seq<User>)
    ensures Ids(users + us) == Ids(users) + Ids(us)
  {
  }

  /** Both halves of a list with distinct ids have distinct ids. */
  lemma DistinctIdsOfParts(users: seq<User>, us: seq<User>)
    requires DistinctIds(users + us)
    ensures DistinctIds(users) && DistinctIds(us)
    ensures Ids(users) !! Ids(us)
  {
    var all := users + us;
    forall i, j | 0 <= i < j < |users| ensures users[i].id != users[j].id {
      assert users[i] == all[i] && users[j] == all[j];
    }
    forall i, j | 0 <= i < j < |us| ensures us[i].id != us[j].id {
      assert us[i] == all[|users| + i] && us[j] == all[|users| + j];
    }
    forall k | k in Ids(users) ensures k !in Ids(us) {
      var u :| u in users && u.id == k;
      var i :| 0 <= i < |users| && users[i] == u;
      forall j | 0 <= j < |us| ensures us[j].id != k {
        assert all[i] == u && all[|users| + j] == us[j];
      }
    }
  }

  /** Converting a list with distinct ids after an append gives the map of the
      old list merged with the map of the appended users. */
  lemma {:induction false} ConversionOfAppend(users: seq<User>, us: seq<User>)
    requires DistinctIds(users + us)
    ensures ToMapById(users).Success? && ToMapById(us).Success?
    ensures ToMapById(users + us).value == ToMapById(users).value + ToMapById(us).value
  {
    DistinctIdsOfParts(users, us);
    IdsOfAppend(users, us);
    var m, m1, m2 := ToMapById(users + us).value, ToMapById(users).value, ToMapById(us).value;
    assert m.Keys == (m1 + m2).Keys by {
      assert m.Keys == Ids(users + us) && m1.Keys == Ids(users) && m2.Keys == Ids(us);
    }
    forall k | k in m ensures m[k] == (m1 + m2)[k] {
      ConversionOfAppendAt(users, us, k);
    }
    assert m == m1 + m2;
  }

  /** One key of ConversionOfAppend: the merged map agrees with the
      conversion of the whole list at key k. */
  lemma ConversionOfAppendAt(users: seq<User>, us: seq<User>, k: Int32)
    requires DistinctIds(users + us) && DistinctIds(users) && DistinctIds(us)
    requires Ids(users) !! Ids(us)
    requires k in Ids(users + us)
    ensures k in ToMapById(users + us).value
    ensures ToMapById(users + us).value[k] == (ToMapById(users).value + ToMapById(us).value)[k]
  {
    var all := users + us;
    var n :| 0 <= n < |all| && all[n].id == k by {
      var u :| u in all && u.id == k;
    }
    assert ToMapById(all).value[k] == all[n];
    if n < |users| {
      assert all[n] == users[n];
      assert ToMapById(users).value[k] == users[n];
      assert k in Ids(users);
    } else {
      assert all[n] == us[n - |users|];
      assert ToMapById(us).value[k] == all[n];
    }
  }

  /** The login and conversion expectations of the service's tests, for the
      users (1, "Ivan", "123") and (2, "Lena", "1234") stored in that order. */
  lemma TestExpectations()
    ensures var ivan, lena := Of(1, "Ivan", "123"), Of(2, "Lena", "1234");
      && FindAny([ivan, lena], "Ivan", "123") == Some(ivan)
      && FindAny([ivan, lena], "Lena", "1234") == Some(lena)
      && FindAny([ivan, lena], "dummy", "123") == None
      && FindAny([ivan, lena], "Ivan", "dummy") == None
      && ToMapById([ivan, lena]) == Success(map[1 := ivan, 2 := lena])
      && ToMapById([]) == Success(map[])
  {
  }

  /** A new service is empty; adds grow it in argument order, and an add of
      nothing reports no change. */
  method SizeScenario()
  {
    var ivan, lena := Of(1, "Ivan", "123"), Of(2, "Lena", "1234");
    var service := new UserService();
    assert service.FindAll() == [];
    var changed := service.Add([ivan]);
    changed := service.Add([lena]);
    assert changed && |service.FindAll()| == 2;
    changed := service.Add([]);
    assert !changed && service.FindAll() == [ivan, lena];
  }

  /** The login table and the null guard, with Ivan and Lena stored. */
  method LoginScenario()
  {
    var ivan, lena := Of(1, "Ivan", "123"), Of(2, "Lena", "1234");
    var service := new UserService();
    var changed := service.Add([ivan, lena]);
    assert Matches(ivan, "Ivan", "123") && !Matches(lena, "Ivan", "123");
    assert service.Login(Some("Ivan"), Some("123")) == Success(Some(ivan));
    assert ivan.name[0] != lena.name[0];
    assert Matches(lena, "Lena", "1234") && !Matches(ivan, "Lena", "1234");
    assert service.Login(Some("Lena"), Some("1234")) == Success(Some(lena));
    assert service.Login(Some("dummy"), Some("123")) == Success(None);
    assert service.Login(Some("Ivan"), Some("dummy")) == Success(None);
    assert service.Login(None, Some("dummy")) == Failure(IllegalArgument(NullCredentialsMessage));
    assert service.Login(Some("dummy"), None).Failure?;
  }

  /** Conversion to a map keyed by id, and its failure once an id repeats. */
  method ConversionScenario()
  {
    var ivan, lena := Of(1, "Ivan", "123"), Of(2, "Lena", "1234");
    var service := new UserService();
    var changed := service.Add([ivan, lena]);
    var byId := service.GetAllConvertedById();
    assert byId.Success? by {
      assert DistinctIds(service.users);
    }
    assert byId.value.Keys == {1, 2} by {
      assert Ids(service.users) == {1, 2};
    }
    assert byId.value[1] == ivan && byId.value[2] == lena;

    changed := service.Add([ivan]);
    byId := service.GetAllConvertedById();
    assert byId.Failure? by {
      assert service.users[0].id == service.users[2].id;
    }
  }
}
