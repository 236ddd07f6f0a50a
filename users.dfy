/** The user record shared by the authentication and administration
    services, and the repository lookups on it. */
module Users {
  import opened Common

  /** USER and TEACHER are the roles the services test for; any other role
      is carried by name. */
  datatype Role = User | Teacher | OtherRole(name: string)

  datatype UserStatus = Active | Inactive | Blocked

  /** A user. The password is the encoded one, absent for Google accounts;
      the status may be null. */
  datatype UserRecord = UserRecord(id: string, email: string, password: Option<string>, fullname: string,
                                   role: Role, status: Option<UserStatus>, authType: string)

  /** The first user with the id, or -1. */
  function UserIndex(users: seq<UserRecord>, id: string): int {
    FirstWhere(users, (u: UserRecord) => u.id == id)
  }

  /** The first user with the email, or -1. */
  function UserIndexByEmail(users: seq<UserRecord>, email: string): int {
    FirstWhere(users, (u: UserRecord) => u.email == email)
  }

  /** The first user with the email and the authentication type, or -1. */
  function UserIndexByEmailAndAuth(users: seq<UserRecord>, email: string, authType: string): int {
    FirstWhere(users, (u: UserRecord) => u.email == email && u.authType == authType)
  }
}
