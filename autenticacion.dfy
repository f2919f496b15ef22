/** The session: who is logged in, how a login answer changes it, and its
    copy in the browser's `localStorage`, held here as a map from keys to
    strings. */
module Autenticacion {
  import opened Comun

  /** The `localStorage` key of the session. */
  const Clave := "usuarioLogueado"

  const MensajeExitoso := "Login exitoso"
  const ErrorUsuario := "Error interno al recibir usuario."
  const ErrorCredenciales := "Credenciales inválidas."
  const ErrorNoAutorizado := "Usuario o contraseña incorrectos."
  const ErrorConexion := "Error al conectar con el servidor."

  /** What `api.post('/login/', ...)` produced: a response body, or a thrown
      error carrying the HTTP status of its response when it has one. */
  datatype RespuestaLogin =
    | Cuerpo(mensaje: Option<string>, usuario: Option<string>)
    | Fallo(status: Option<int>)

  /** What `login` returns. */
  datatype ResultadoLogin = ResultadoLogin(success: bool, error: Option<string>)

  /** The user a reload restores (lines 7-10): the stored value when it is
      truthy, otherwise `null`. */
  function Restaurar(almacen: map<string, string>): (u: Option<string>)
    ensures u.Some? <==> Clave in almacen && almacen[Clave] != ""
    ensures u.Some? ==> u.value == almacen[Clave]
  {
    if Clave in almacen && almacen[Clave] != "" then Some(almacen[Clave]) else None
  }

  /** The answer of `login` (lines 12-39). */
  function DecidirLogin(r: RespuestaLogin): (res: ResultadoLogin)
    ensures res.success <==> r.Cuerpo? && r.mensaje == Some(MensajeExitoso) && Presente(r.usuario)
    ensures res.success <==> res.error.None?
    ensures r.Cuerpo? && r.mensaje == Some(MensajeExitoso) && !Presente(r.usuario) ==> res.error == Some(ErrorUsuario)
    ensures r.Cuerpo? && r.mensaje != Some(MensajeExitoso) ==> res.error == Some(ErrorCredenciales)
    ensures r.Fallo? && r.status == Some(401) ==> res.error == Some(ErrorNoAutorizado)
    ensures r.Fallo? && r.status != Some(401) ==> res.error == Some(ErrorConexion)
  {
    match r
    case Cuerpo(mensaje, usuario) =>
      if mensaje == Some(MensajeExitoso) then
        if Presente(usuario) then ResultadoLogin(true, None)
        else ResultadoLogin(false, Some(ErrorUsuario))
      else ResultadoLogin(false, Some(ErrorCredenciales))
    case Fallo(status) =>
      ResultadoLogin(false, Some(if status == Some(401) then ErrorNoAutorizado else ErrorConexion))
  }

  /** `AuthProvider`'s state and the storage it writes. */
  class Sesion {
    var usuarioLogueado: Option<string>
    var almacen: map<string, string>

    /** The session always is what a reload would restore from storage. */
    predicate Coherente()
      reads this
    {
      usuarioLogueado == Restaurar(almacen)
    }

    /** Mounting the provider over an existing storage (lines 7-10). */
    constructor (almacenInicial: map<string, string>)
      ensures Coherente()
      ensures almacen == almacenInicial && usuarioLogueado == Restaurar(almacenInicial)
    {
      almacen := almacenInicial;
      usuarioLogueado := Restaurar(almacenInicial);
    }

    /** `login` (lines 12-39): on success the user is kept in the state and
        in storage; otherwise nothing changes. */
    method Login(r: RespuestaLogin) returns (res: ResultadoLogin)
      requires Coherente()
      modifies this
      ensures Coherente()
      ensures res == DecidirLogin(r)
      ensures res.success ==> usuarioLogueado == r.usuario && almacen == old(almacen)[Clave := r.usuario.value]
      ensures !res.success ==> usuarioLogueado == old(usuarioLogueado) && almacen == old(almacen)
    {
      res := DecidirLogin(r);
      if res.success {
        usuarioLogueado := r.usuario;
        almacen := almacen[Clave := r.usuario.value];
      }
    }

    /** `logout` (lines 41-44). */
    method Logout()
      modifies this
      ensures Coherente()
      ensures usuarioLogueado == None && almacen == old(almacen) - {Clave}
    {
      usuarioLogueado := None;
      almacen := almacen - {Clave};
    }
  }
}
