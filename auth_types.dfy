/** The backend-owned user record and the login response (src/types/auth.types.ts). */
module AuthTypes {
  import opened Wrappers

  /** The only role the system admits. */
  const UNIVERSITAS: string := "UNIVERSITAS"

  datatype User = User(
    id: string,
    email: string,
    nombre: string,
    apellido: string,
    rol: string,
    enteId: Option<string>)

  /** Body of a successful `POST /auth/login`. */
  datatype LoginResponse = LoginResponse(accessToken: string, user: User)
}
