/** The administration page: the user list built from the backend's
    records, the local role update after a role change, and which action
    buttons are disabled. */
module Admin {
  import opened Base

  /** A row of the user table. */
  datatype Usuario = Usuario(id: int, nombre: string, email: string, rol: string)

  /** A user record as `/api/admin/users` returns it (`id_usuario`, `mail`,
      `name`, `rol`). */
  datatype UsuarioBackend = UsuarioBackend(idUsuario: int, mail: string, name: string, rol: string)

  const RolAdmin := "ADMIN"
  const RolNormal := "NORMAL"
  const RolEliminado := "ELIMINADO"

  /** One table row per backend record, in `Object.values` order. */
  function CargarUsuarios(raw: seq<UsuarioBackend>): (us: seq<Usuario>)
    ensures |us| == |raw|
    ensures forall i :: 0 <= i < |raw| ==>
      us[i] == Usuario(raw[i].idUsuario, raw[i].name, raw[i].mail, raw[i].rol)
  {
    seq(|raw|, i requires 0 <= i < |raw| => Usuario(raw[i].idUsuario, raw[i].name, raw[i].mail, raw[i].rol))
  }

  /** The backend record a table row stands for. */
  function ARegistro(u: Usuario): UsuarioBackend
  {
    UsuarioBackend(u.id, u.email, u.nombre, u.rol)
  }

  /** No field of a record is lost: each row maps back to its record. */
  lemma CargarUsuariosSinPerdida(raw: seq<UsuarioBackend>)
    ensures forall i :: 0 <= i < |raw| ==> ARegistro(CargarUsuarios(raw)[i]) == raw[i]
  {
  }

  /** The local update after a role change: the users with id `id` get
      the new role, everything else stays as it was. */
  function ActualizarRol(us: seq<Usuario>, id: int, nuevoRol: string): (r: seq<Usuario>)
    ensures |r| == |us|
    ensures forall i :: 0 <= i < |us| && us[i].id != id ==> r[i] == us[i]
    ensures forall i :: 0 <= i < |us| && us[i].id == id ==> r[i] == us[i].(rol := nuevoRol)
  {
    seq(|us|, i requires 0 <= i < |us| => if us[i].id == id then us[i].(rol := nuevoRol) else us[i])
  }

  /** Applying the same change twice is applying it once. */
  lemma ActualizarRolIdempotente(us: seq<Usuario>, id: int, nuevoRol: string)
    ensures ActualizarRol(ActualizarRol(us, id, nuevoRol), id, nuevoRol) == ActualizarRol(us, id, nuevoRol)
  {
  }

  /** Giving users the role they already have changes nothing. */
  lemma ActualizarRolSinEfecto(us: seq<Usuario>, id: int, nuevoRol: string)
    requires forall i :: 0 <= i < |us| && us[i].id == id ==> us[i].rol == nuevoRol
    ensures ActualizarRol(us, id, nuevoRol) == us
  {
  }

  /** The PUT request, as far as the page sees it: it resolved with some
      HTTP status, or it was rejected (network failure). */
  datatype RespuestaPut = Resuelta(status: int) | Rechazada

  datatype PeticionRol = PeticionRol(id: int, rol: string)

  /** The outcome of `cambiarRol`: the new user list, the request sent if
      any, and whether the error alert was shown. */
  datatype Cambio = Cambio(usuarios: seq<Usuario>, peticion: Option<PeticionRol>, alerta: bool)

  /** `cambiarRol`: without a token nothing happens. Otherwise the PUT is
      sent, and once it resolves the list is updated whatever the status,
      since the response is never inspected; only a rejected request
      leaves the list alone and shows the alert. */
  function CambiarRol(token: Option<string>, us: seq<Usuario>, id: int, nuevoRol: string, respuesta: RespuestaPut): (c: Cambio)
    ensures !IsTruthy(token) ==> c == Cambio(us, None, false)
    ensures IsTruthy(token) ==> c.peticion == Some(PeticionRol(id, nuevoRol))
    ensures IsTruthy(token) && respuesta.Resuelta? ==> !c.alerta && c.usuarios == ActualizarRol(us, id, nuevoRol)
    ensures IsTruthy(token) && respuesta.Rechazada? ==> c.alerta && c.usuarios == us
  {
    if !IsTruthy(token) then Cambio(us, None, false)
    else
      match respuesta
      case Resuelta(_) => Cambio(ActualizarRol(us, id, nuevoRol), Some(PeticionRol(id, nuevoRol)), false)
      case Rechazada => Cambio(us, Some(PeticionRol(id, nuevoRol)), true)
  }

  /** An error status from the server is treated like a success. */
  lemma EstadoIgnorado(token: Option<string>, us: seq<Usuario>, id: int, nuevoRol: string, s1: int, s2: int)
    ensures CambiarRol(token, us, id, nuevoRol, Resuelta(s1)) == CambiarRol(token, us, id, nuevoRol, Resuelta(s2))
  {
  }

  // ---------------------------------------------------------------------
  // Overlapping role changes

  /** The list shown once a change settles, as the page is written: the
      handler builds the new list from `capturada`, the list rendered when
      the button was clicked, and replaces whatever is shown (`actual`)
      with it; without a token or after a rejected request no update is
      made and `actual` stays. */
  function AplicarCambioCapturado(actual: seq<Usuario>, capturada: seq<Usuario>, token: Option<string>,
                                  id: int, nuevoRol: string, respuesta: RespuestaPut): (r: seq<Usuario>)
    ensures !IsTruthy(token) || respuesta.Rechazada? ==> r == actual
    ensures IsTruthy(token) && respuesta.Resuelta? ==> r == ActualizarRol(capturada, id, nuevoRol)
  {
    if IsTruthy(token) && respuesta.Resuelta? then CambiarRol(token, capturada, id, nuevoRol, respuesta).usuarios
    else actual
  }

  /** The list shown once a change settles when the update is applied to
      the list shown at that moment (a functional state update). */
  function AplicarCambio(actual: seq<Usuario>, token: Option<string>, id: int, nuevoRol: string,
                         respuesta: RespuestaPut): (r: seq<Usuario>)
    ensures !IsTruthy(token) || respuesta.Rechazada? ==> r == actual
    ensures IsTruthy(token) && respuesta.Resuelta? ==> r == ActualizarRol(actual, id, nuevoRol)
  {
    CambiarRol(token, actual, id, nuevoRol, respuesta).usuarios
  }

  /** Without an overlap, when nothing changed since the click, the two
      readings agree. */
  lemma SinSolapeCoinciden(us: seq<Usuario>, token: Option<string>, id: int, nuevoRol: string, respuesta: RespuestaPut)
    ensures AplicarCambioCapturado(us, us, token, id, nuevoRol, respuesta) == AplicarCambio(us, token, id, nuevoRol, respuesta)
  {
  }

  /** Changes to different users commute. */
  lemma ActualizarRolConmuta(us: seq<Usuario>, a: int, ra: string, b: int, rb: string)
    requires a != b
    ensures ActualizarRol(ActualizarRol(us, a, ra), b, rb) == ActualizarRol(ActualizarRol(us, b, rb), a, ra)
  {
  }

  /** With the functional update, two settled changes to different users
      both survive whichever resolves first: the result is the same either
      way, and each user carries the role of the change made to them. */
  lemma CambiosSolapadosFuncional(us: seq<Usuario>, token: Option<string>, a: int, ra: string, b: int, rb: string, sa: int, sb: int)
    requires IsTruthy(token)
    requires a != b
    ensures var r := AplicarCambio(AplicarCambio(us, token, a, ra, Resuelta(sa)), token, b, rb, Resuelta(sb));
      && r == AplicarCambio(AplicarCambio(us, token, b, rb, Resuelta(sb)), token, a, ra, Resuelta(sa))
      && |r| == |us|
      && (forall i :: 0 <= i < |us| && us[i].id == a ==> r[i].rol == ra)
      && (forall i :: 0 <= i < |us| && us[i].id == b ==> r[i].rol == rb)
  {
    ActualizarRolConmuta(us, a, ra, b, rb);
  }

  /** As written, the second change to settle overwrites the first: user 1
      (NORMAL) is promoted and user 2 (ADMIN) demoted from the same
      rendered list; once both requests resolve, promotion first, user 1
      is shown as NORMAL again. With the functional update both changes
      show. */
  lemma CambiosSolapados()
    ensures var us := [Usuario(1, "a", "a@x", RolNormal), Usuario(2, "b", "b@x", RolAdmin)];
      var t := Some("t");
      var escrito := AplicarCambioCapturado(AplicarCambioCapturado(us, us, t, 1, RolAdmin, Resuelta(200)), us, t, 2, RolNormal, Resuelta(200));
      var funcional := AplicarCambio(AplicarCambio(us, t, 1, RolAdmin, Resuelta(200)), t, 2, RolNormal, Resuelta(200));
      && escrito[0].rol == RolNormal
      && funcional[0].rol == RolAdmin && funcional[1].rol == RolNormal
  {
  }

  // ---------------------------------------------------------------------
  // Action buttons

  datatype Boton = HacerAdministrador | HacerUsuarioNormal | EliminarUsuario

  /** The role each button sends. */
  function RolDeBoton(b: Boton): string
  {
    match b
    case HacerAdministrador => RolAdmin
    case HacerUsuarioNormal => RolNormal
    case EliminarUsuario => RolEliminado
  }

  /** The `disabled` attribute of each button in a user's row. */
  predicate Deshabilitado(b: Boton, u: Usuario)
  {
    match b
    case HacerAdministrador => u.rol == RolAdmin
    case HacerUsuarioNormal => u.rol == RolNormal
    case EliminarUsuario => false
  }

  /** A promote or demote button is disabled exactly when the user already
      has the role it would send; the delete button is never disabled. */
  lemma DeshabilitadoSiRolActual(b: Boton, u: Usuario)
    ensures b != EliminarUsuario ==> (Deshabilitado(b, u) <==> u.rol == RolDeBoton(b))
    ensures !Deshabilitado(EliminarUsuario, u)
  {
  }

  /** After a button's change is applied, the promote or demote button just
      used is disabled for that user, and a deleted user has both enabled. */
  lemma PulsarBoton(token: Option<string>, us: seq<Usuario>, i: int, b: Boton, status: int)
    requires IsTruthy(token)
    requires 0 <= i < |us|
    ensures var r := CambiarRol(token, us, us[i].id, RolDeBoton(b), Resuelta(status)).usuarios;
      && r[i].rol == RolDeBoton(b)
      && (b != EliminarUsuario ==> Deshabilitado(b, r[i]))
      && (b == EliminarUsuario ==> !Deshabilitado(HacerAdministrador, r[i]) && !Deshabilitado(HacerUsuarioNormal, r[i]))
  {
  }
}
