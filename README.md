# User directory service, modelled in Dafny

This project models the core of a small Java teaching project. That core is an
in-memory user directory, `UserService`, which stores immutable `User` records
(an id, a name and a password).

- `wrappers.dfy`, module `Wrappers`: `Option` stands for `java.util.Optional`.
  `Result` stands for an operation that either returns a value or throws an exception.
- `user.dfy`, module `Users`: the `User` value class. Its `id` is a Java `Integer`,
  modelled as the 32-bit newtype `Int32`. Names and passwords are strings. The
  record has field-wise equality and the static factory `of`, here `Of`.
- `user_service.dfy`, module `UserServices`: the class `UserService`. Its mutable
  field `users: seq<User>` stands for the `ArrayList` and is reassigned by `Add`.
  The read-only operations `FindAll`, `Login` and `GetAllConvertedById` are
  functions that read the object, so they cannot change it. The two stream
  pipelines are functions over the sequence:
  - `FindAny` models `filter(name).filter(password).findAny()`.
  - `ToMapById` models `collect(toMap(User::getId, identity()))`, folded left to
    right. The first id met a second time fails the conversion with
    `DuplicateKey(id, existing, incoming)`, the values that Java's
    `IllegalStateException` message names.

Login's null arguments are `Option<string>` values, where `None` is Java's
`null`. The `IllegalArgumentException` is
`Failure(IllegalArgument("Username or password is null!"))`.

Two behaviours of the code are easy to misread:
- `login` uses `findAny`, so its contract promises some matching user, not the first one.
  The body returns the first match, which is one allowed choice.
- `add` returns what `ArrayList.addAll` returns: `false` when no user is passed, not always `true`.

## Model

| member | source | states |
|---|---|---|
| Users.Of | src/main/java/ru/michaelshell/junit/dto/User.java:5-10 | the factory accepts any id, name and password and the getters return exactly those values |
| Users.OfEquality | src/main/java/ru/michaelshell/junit/dto/User.java:5-10 | two factory-built users are equal iff all three arguments are equal |
| Users.UserEquality | src/main/java/ru/michaelshell/junit/dto/User.java:5-10 | users are equal iff id, name and password are all equal (generated field-wise equals) |
| UserServices.UserService.constructor | src/main/java/ru/michaelshell/junit/service/UserService.java:13 | a new service holds an empty user list |
| UserServices.UserService.FindAll | src/main/java/ru/michaelshell/junit/service/UserService.java:15-17 | returns the stored users in insertion order; it reads the service and changes nothing, so repeated calls agree |
| UserServices.UserService.Add | src/main/java/ru/michaelshell/junit/service/UserService.java:19-21 | the new list is the old list followed by the arguments in order; the result is true iff at least one user was passed |
| UserServices.FindAny | src/main/java/ru/michaelshell/junit/service/UserService.java:27-30 | soundness: a returned user is stored and has exactly the given name and password; completeness: the result is empty iff no stored user matches both |
| UserServices.UserService.Login | src/main/java/ru/michaelshell/junit/service/UserService.java:23-31 | fails with IllegalArgument("Username or password is null!") iff name or password is null; otherwise the result is sound and complete as for FindAny |
| UserServices.ToMapById | src/main/java/ru/michaelshell/junit/service/UserService.java:33-36 | succeeds iff all ids are distinct; on success the keys are exactly the stored ids and each stored user sits under its own id; on failure the error names the first repeated id in scan order, the earlier user holding it and the later one |
| UserServices.UserService.GetAllConvertedById | src/main/java/ru/michaelshell/junit/service/UserService.java:33-36 | the same as ToMapById for the stored list, and on success the map's values are exactly the stored users |
| UserServices.ConvertedValues | src/test/java/ru/michaelshell/junit/service/UserServiceTest.java:99-107 | after a successful conversion the map's values are the stored users and every stored user is found under its id |
| UserServices.StoredUserLogsIn | src/main/java/ru/michaelshell/junit/service/UserService.java:27-30 | a stored user always logs in with its own credentials; if no other stored user shares them, login returns exactly that user |
| UserServices.LoginSurvivesAdd | src/main/java/ru/michaelshell/junit/service/UserService.java:19-30 | appending users never turns a successful lookup into an empty one |
| UserServices.ConversionFailurePersists | src/main/java/ru/michaelshell/junit/service/UserService.java:19-36 | once the list holds a duplicate id, conversion fails, and it still fails after any further append |
| UserServices.ConversionOfAppend | src/main/java/ru/michaelshell/junit/service/UserService.java:19-36 | for a list with distinct ids, converting old list plus appended users gives the old map merged with the map of the appended users |
| UserServices.TestExpectations | src/test/java/ru/michaelshell/junit/service/UserServiceTest.java:188-194 | with (1, Ivan, 123) and (2, Lena, 1234) stored, the four login cases give Ivan, Lena, empty and empty; the map is {1: Ivan, 2: Lena}; the empty list converts to the empty map |

The methods `SizeScenario`, `LoginScenario` and `ConversionScenario` are clients of
the class. They derive the service's test scenarios from the class contracts
alone. Those scenarios cover an empty new service, the size after two adds, the
login table, the null guard and conversion to a map, including failure after a
duplicate id.

## Left out

- `delete` and the `UserDao` collaborator are used by the tests, but `UserService.java` has neither a `delete` method nor a constructor taking a DAO. `UserDao` is not part of this model.
- Null fields inside stored users are not modelled. The `NullPointerException` that `login` would raise for a null stored name or password is not modelled either. `User` fields are never null here, and `Of` accepts every non-null combination.
- Null list elements are not modelled. `add(IVAN, null)` would store a null user, which then makes `login`'s filter and `toMap`'s `User::getId` throw `NullPointerException`; here every stored element is a `User` value.
- A null `Integer` id is not modelled.
- `UserServices.UserService.FindAll` returns the list's value, not the live `ArrayList` reference. Mutation through that alias is not modelled.
- The text of the duplicate-key exception message is not modelled. The error carries the key and both colliding users instead.
- Concurrency (the list is unsynchronised), the test-framework machinery and console output are not modelled.
