/**
 * The admin accounts of the 360 assessment application: creating an account
 * appends a username and a hashed password to the accounts file, and the admin
 * report viewer logs in by matching both on one line of that file.
 *
 * The password hash (SHA-256 as hex in the application) is a parameter: every
 * property here holds for whatever function hashes the passwords.
 */
module Accounts {

  import opened Wrappers

  /** One line of the accounts file: a username and a password hash. */
  datatype Account = Account(username: string, password: string)

  /** Why an account could not be created. */
  datatype CreateError = UsernameExists

  /** What a login attempt ends in. */
  datatype LoginOutcome = LoggedIn | InvalidCredentials | NoAccounts

  /** The lines of the accounts file; an absent file reads as no lines. */
  function Stored(file: Option<seq<Account>>): seq<Account>
  {
    if file.Some? then file.value else []
  }

  /** Some line of the file holds the username. */
  predicate Taken(accounts: seq<Account>, username: string)
  {
    exists a :: a in accounts && a.username == username
  }

  /** No username appears on two lines. */
  predicate UniqueUsernames(accounts: seq<Account>)
  {
    forall i, j :: 0 <= i < j < |accounts| ==> accounts[i].username != accounts[j].username
  }

  /** Create an admin account: refused when the username is already on file
      (an absent file holds none), otherwise the file gains one line with the
      username and the hash of the password, after every existing line. */
  function CreateAccount(file: Option<seq<Account>>, username: string, password: string,
                         hash: string -> string): (r: Result<seq<Account>, CreateError>)
    ensures r.Failure? <==> Taken(Stored(file), username)
    ensures r.Failure? ==> r.error == UsernameExists
    ensures r.Success? ==> |r.value| == |Stored(file)| + 1
    ensures r.Success? ==> r.value[..|Stored(file)|] == Stored(file)
    ensures r.Success? ==> r.value[|Stored(file)|] == Account(username, hash(password))
  {
    var accounts := Stored(file);
    if Taken(accounts, username) then
      Failure(UsernameExists)
    else
      Success(accounts + [Account(username, hash(password))])
  }

  /** Log in as admin report viewer: without an accounts file there is nobody
      to log in as; otherwise it succeeds exactly when one line holds both the
      username and the hash of the password given. */
  function Login(file: Option<seq<Account>>, username: string, password: string,
                 hash: string -> string): (o: LoginOutcome)
    ensures o == NoAccounts <==> file.None?
    ensures o == LoggedIn <==> file.Some? && Account(username, hash(password)) in file.value
  {
    match file
    case None => NoAccounts
    case Some(accounts) =>
      if exists i :: 0 <= i < |accounts| && accounts[i].username == username
                                         && accounts[i].password == hash(password)
      then LoggedIn
      else InvalidCredentials
  }

  /** A freshly created account can log in with the password it was created with. */
  lemma CreateThenLogin(file: Option<seq<Account>>, username: string, password: string,
                        hash: string -> string)
    requires CreateAccount(file, username, password, hash).Success?
    ensures Login(Some(CreateAccount(file, username, password, hash).value), username, password, hash)
         == LoggedIn
  {
    var accounts := CreateAccount(file, username, password, hash).value;
    assert accounts[|Stored(file)|] == Account(username, hash(password));
  }

  /** After creating an account, a password logs in as its user exactly when it
      hashes like the one it was created with. */
  lemma NewAccountPassword(file: Option<seq<Account>>, username: string, password: string,
                           other: string, hash: string -> string)
    requires CreateAccount(file, username, password, hash).Success?
    ensures Login(Some(CreateAccount(file, username, password, hash).value), username, other, hash)
            == LoggedIn
        <==> hash(other) == hash(password)
  {
    var before := Stored(file);
    var accounts := CreateAccount(file, username, password, hash).value;
    assert accounts == before + [Account(username, hash(password))];
  }

  /** Creating an account changes no other user's login, except that an absent
      file becomes present. */
  lemma CreateKeepsOtherLogins(file: Option<seq<Account>>, username: string, password: string,
                               hash: string -> string, user: string, pw: string)
    requires CreateAccount(file, username, password, hash).Success?
    requires user != username
    ensures Login(Some(CreateAccount(file, username, password, hash).value), user, pw, hash)
         == if file.None? then InvalidCredentials else Login(file, user, pw, hash)
  {
    var accounts := CreateAccount(file, username, password, hash).value;
    assert accounts == Stored(file) + [Account(username, hash(password))];
  }

  /** Every login that worked before an account is created still works after. */
  lemma CreateKeepsLogins(file: Option<seq<Account>>, username: string, password: string,
                          hash: string -> string, user: string, pw: string)
    requires CreateAccount(file, username, password, hash).Success?
    requires Login(file, user, pw, hash) == LoggedIn
    ensures Login(Some(CreateAccount(file, username, password, hash).value), user, pw, hash) == LoggedIn
  {
    var accounts := CreateAccount(file, username, password, hash).value;
    assert accounts == Stored(file) + [Account(username, hash(password))];
  }

  /** An account that was created successfully cannot be created again. */
  lemma CreateTwiceRejected(file: Option<seq<Account>>, username: string, password: string,
                            again: string, hash: string -> string)
    requires CreateAccount(file, username, password, hash).Success?
    ensures CreateAccount(Some(CreateAccount(file, username, password, hash).value), username, again, hash)
         == Failure(UsernameExists)
  {
    var accounts := CreateAccount(file, username, password, hash).value;
    assert accounts[|Stored(file)|] in accounts;
  }

  /** Accounts made only through CreateAccount never share a username. */
  lemma CreateKeepsUsernamesUnique(file: Option<seq<Account>>, username: string, password: string,
                                   hash: string -> string)
    requires UniqueUsernames(Stored(file))
    requires CreateAccount(file, username, password, hash).Success?
    ensures UniqueUsernames(CreateAccount(file, username, password, hash).value)
  {
    var before := Stored(file);
    var accounts := CreateAccount(file, username, password, hash).value;
    forall i, j | 0 <= i < j < |accounts|
      ensures accounts[i].username != accounts[j].username
    {
      assert accounts[i] == before[i];
      if j < |before| {
        assert accounts[j] == before[j];
      } else {
        assert before[i] in before;
      }
    }
  }

  /** A login succeeds only for a username on file. */
  lemma LoginNeedsAccount(file: Option<seq<Account>>, username: string, password: string,
                          hash: string -> string)
    requires Login(file, username, password, hash) == LoggedIn
    ensures Taken(Stored(file), username)
  {
    assert Account(username, hash(password)).username == username;
  }
}
