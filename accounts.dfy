/**
 * The fixed demo accounts, the credential check of the login form
 * (`users.find` on username and password), and which dashboard a logged-in
 * account is shown.
 */
module Accounts {
  import opened Common

  /** `ROLES`: student, admin and leader; roles are only ever compared with each other. */
  datatype Role = Mahasiswa | Admin | Pimpinan

  datatype Account = Account(id: nat, name: string, username: string, password: string, role: Role)

  /** The two demo accounts. */
  const DemoUsers: seq<Account> := [
    Account(1, "Admin Fakultas", "admin", "admin123", Admin),
    Account(2, "Pimpinan Fakultas", "pimpinan", "pimpinan123", Pimpinan)
  ]

  /** Exact, case-sensitive comparison of both fields. */
  predicate Matches(a: Account, username: string, password: string) {
    a.username == username && a.password == password
  }

  /** Account `i` is the first one whose credentials match. */
  predicate IsFirstMatch(users: seq<Account>, i: int, username: string, password: string) {
    && 0 <= i < |users|
    && Matches(users[i], username, password)
    && forall j :: 0 <= j < i ==> !Matches(users[j], username, password)
  }

  /** `users.find(x => x.username === username && x.password === password)`. */
  function Login(users: seq<Account>, username: string, password: string): (r: Option<Account>)
    ensures r.None? <==> forall i :: 0 <= i < |users| ==> !Matches(users[i], username, password)
    ensures r.Some? ==> exists i :: IsFirstMatch(users, i, username, password) && users[i] == r.value
    decreases |users|
  {
    if users == [] then None
    else if Matches(users[0], username, password) then Some(users[0])
    else
      var r := Login(users[1..], username, password);
      assert r.Some? ==> exists i :: IsFirstMatch(users, i, username, password) && users[i] == r.value by {
        if r.Some? {
          var i :| IsFirstMatch(users[1..], i, username, password) && users[1..][i] == r.value;
          assert forall j :: 1 <= j < i + 1 ==> users[j] == users[1..][j - 1];
          assert IsFirstMatch(users, i + 1, username, password);
        }
      }
      r
  }

  /** The dashboards the main view can show. */
  datatype Dashboard = AdminDashboard | LeaderDashboard | NoDashboard

  /** The dashboard rendered for the logged-in user: only the admin's holds the status, delete and export buttons. */
  function DashboardFor(user: Option<Account>): Dashboard {
    match user
    case None => NoDashboard
    case Some(a) =>
      match a.role
      case Admin => AdminDashboard
      case Pimpinan => LeaderDashboard
      case Mahasiswa => NoDashboard
  }

  /** The mutation buttons are reachable exactly when the user is logged in with the admin role. */
  predicate CanMutate(user: Option<Account>) {
    DashboardFor(user) == AdminDashboard
  }

  /** With the demo accounts, login succeeds for exactly the two demo credential pairs. */
  lemma DemoLogin(username: string, password: string)
    ensures Login(DemoUsers, username, password).Some? <==>
      (username == "admin" && password == "admin123") || (username == "pimpinan" && password == "pimpinan123")
    ensures Login(DemoUsers, "admin", "admin123") == Some(DemoUsers[0])
    ensures Login(DemoUsers, "pimpinan", "pimpinan123") == Some(DemoUsers[1])
  {
    assert DemoUsers[1..] == [DemoUsers[1]];
  }

  /** A right username with a wrong password is refused. */
  lemma UsernameAloneFails(users: seq<Account>, username: string, password: string)
    requires forall i :: 0 <= i < |users| && users[i].username == username ==> users[i].password != password
    ensures Login(users, username, password) == None
  {
  }

  /** With the demo accounts, the admin dashboard is reached only with the admin's credentials, the leader's only with the leader's. */
  lemma DemoDashboards(username: string, password: string)
    ensures CanMutate(Login(DemoUsers, username, password)) <==> username == "admin" && password == "admin123"
    ensures DashboardFor(Login(DemoUsers, username, password)) == LeaderDashboard <==>
      username == "pimpinan" && password == "pimpinan123"
  {
    DemoLogin(username, password);
    assert DemoUsers[1..] == [DemoUsers[1]];
  }
}
