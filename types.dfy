/** Row and payload shapes shared by the controllers and middlewares,
    following the type declarations in src/types and the table schemas. */
module Types {
  import opened Basics

  /** The schema's `CHECK(role IN ('user', 'admin'))`. */
  datatype Role = UserRole | AdminRole

  datatype UserStatus = Active | Banned

  /** A row of the users table. `password` holds the bcrypt hash. */
  datatype UserRow = UserRow(
    id: int,
    username: string,
    password: string,
    role: Role,
    status: UserStatus,
    createdAt: string)

  /** The signed token payload `{ id, username, role }` that the auth
      middleware stores as `req.user`; `issuedAt`/`expiresAt` stand for the
      standard claims the token library adds. */
  datatype Payload = Payload(
    id: int,
    username: string,
    role: Role,
    issuedAt: int,
    expiresAt: int)

  /** A row of the images table; a null tag is `None`. */
  datatype ImageRow = ImageRow(
    id: int,
    userId: int,
    fileName: string,
    originalName: string,
    fileUrl: string,
    fileSize: int,
    mimeType: string,
    tag: Option<string>,
    createdAt: string)

  /** A row of the versions table; null notes are `None`. */
  datatype VersionRow = VersionRow(
    id: int,
    version: string,
    releaseDate: string,
    notes: Option<string>)
}
