/** The login dialog: a directory lookup by exact username. The password is
    only required to be non-empty; its content is never inspected. */
module Login {
  import opened Types
  import Data
  import Seqs

  /** What a submitted login form leads to: the user handed to the session,
      or the error message shown in the dialog (the session is untouched). */
  datatype LoginOutcome = LoggedIn(user: User) | Rejected(message: string)

  const InvalidCredentials: string :=
    "Credenciales inválidas. Intente con \"admin\" o \"directivo\" y cualquier contraseña."

  /** `directory.find(u => u.username === username)`: the first entry with
      exactly that username, or nothing. */
  function FindUser(directory: seq<User>, username: string): (r: Option<User>)
    ensures r.None? <==> forall u :: u in directory ==> u.username != username
    ensures r.Some? ==> exists i :: 0 <= i < |directory| && directory[i] == r.value
                          && r.value.username == username
                          && forall j :: 0 <= j < i ==> directory[j].username != username
  {
    var k := Seqs.FirstWhere(directory, (u: User) => u.username == username);
    if k < |directory| then Some(directory[k]) else None
  }

  /** The login decision against a directory: the username must match an
      entry exactly and the password must be non-empty. */
  function Authenticate(directory: seq<User>, username: string, password: string): (o: LoginOutcome)
    ensures o.LoggedIn? <==> password != "" && exists u :: u in directory && u.username == username
    ensures o.LoggedIn? ==> exists i :: 0 <= i < |directory| && directory[i] == o.user
                              && o.user.username == username
                              && forall j :: 0 <= j < i ==> directory[j].username != username
    ensures o.Rejected? ==> o.message == InvalidCredentials
  {
    var user := FindUser(directory, username);
    if user.Some? && password != "" then LoggedIn(user.value)
    else Rejected(InvalidCredentials)
  }

  /** The dialog's submit handler, reading the seed directory. */
  function HandleLogin(username: string, password: string): (o: LoginOutcome)
    ensures o.LoggedIn? ==> o.user in Data.MockUsers && o.user.username == username
  {
    Authenticate(Data.MockUsers, username, password)
  }

  /** Beyond being empty or not, the password never affects the outcome. */
  lemma PasswordIrrelevant(directory: seq<User>, username: string, p1: string, p2: string)
    requires (p1 == "") == (p2 == "")
    ensures Authenticate(directory, username, p1) == Authenticate(directory, username, p2)
  {
  }

  /** With the seed directory, "admin" and "directivo" log in with any
      non-empty password; any other username, even one differing only in
      case, is rejected. */
  lemma SeedLogins(password: string)
    requires password != ""
    ensures HandleLogin("admin", password) == LoggedIn(User("admin01", "admin", ADMIN))
    ensures HandleLogin("directivo", password) == LoggedIn(User("dir01", "directivo", DIRECTIVO))
    ensures HandleLogin("Admin", password).Rejected?
    ensures HandleLogin("admin", "").Rejected?
  {
  }
}
