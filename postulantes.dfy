/** The applicants page. Its form state is a plain object updated with
    `{ ...form, [name]: value }` and sent as `FormData` built from
    `Object.keys(form)`, so the model keeps the object's properties in their
    order: a form is the sequence of its (key, value) entries. */
module Postulantes {
  import opened Comun
  import opened Texto
  import opened Registros

  datatype Campo = Campo(clave: string, valor: Valor)

  /** A plain object: its properties in insertion order. */
  datatype Formulario = Formulario(campos: seq<Campo>)

  /** `Object.keys(f)`. */
  function Claves(f: Formulario): (ks: seq<string>)
    ensures |ks| == |f.campos| && forall i :: 0 <= i < |ks| ==> ks[i] == f.campos[i].clave
  {
    Map(f.campos, (c: Campo) => c.clave)
  }

  /** No key twice in a sequence of entries. */
  predicate Unicos(cs: seq<Campo>) {
    forall i, j :: 0 <= i < j < |cs| ==> cs[i].clave != cs[j].clave
  }

  /** An object never has the same key twice. */
  predicate Valido(f: Formulario) {
    Unicos(f.campos)
  }

  function LeerEn(cs: seq<Campo>, k: string): Valor {
    if cs == [] then Indefinido
    else if cs[0].clave == k then cs[0].valor
    else LeerEn(cs[1..], k)
  }

  lemma {:induction false} LeerEnUnico(cs: seq<Campo>, k: string)
    requires Unicos(cs)
    ensures forall i :: 0 <= i < |cs| && cs[i].clave == k ==> LeerEn(cs, k) == cs[i].valor
    ensures (forall i :: 0 <= i < |cs| ==> cs[i].clave != k) ==> LeerEn(cs, k) == Indefinido
  {
    if cs != [] {
      LeerEnUnico(cs[1..], k);
      assert forall i :: 1 <= i < |cs| ==> cs[i] == cs[1..][i - 1];
    }
  }

  /** `f[k]`: the value under `k`, `undefined` when there is none. */
  function Leer(f: Formulario, k: string): (v: Valor)
    requires Valido(f)
    ensures forall i :: 0 <= i < |f.campos| && f.campos[i].clave == k ==> v == f.campos[i].valor
    ensures (forall i :: 0 <= i < |f.campos| ==> f.campos[i].clave != k) ==> v == Indefinido
  {
    LeerEnUnico(f.campos, k);
    LeerEn(f.campos, k)
  }

  function AsignarEn(cs: seq<Campo>, k: string, v: Valor): seq<Campo> {
    if cs == [] then [Campo(k, v)]
    else if cs[0].clave == k then [Campo(k, v)] + cs[1..]
    else [cs[0]] + AsignarEn(cs[1..], k, v)
  }

  /** Every entry after an assignment is the assigned key or an old entry. */
  lemma {:induction false} AsignarEnEntradas(cs: seq<Campo>, k: string, v: Valor)
    ensures forall j :: 0 <= j < |AsignarEn(cs, k, v)| ==> AsignarEn(cs, k, v)[j].clave == k || AsignarEn(cs, k, v)[j] in cs
  {
    if cs != [] && cs[0].clave != k {
      var r := AsignarEn(cs, k, v);
      var t := AsignarEn(cs[1..], k, v);
      AsignarEnEntradas(cs[1..], k, v);
      forall j | 0 <= j < |r| ensures r[j].clave == k || r[j] in cs {
        if j > 0 {
          assert r[j] == t[j - 1];
        }
      }
    }
  }

  /** Assigning an existing key keeps the keys as they were. */
  lemma {:induction false} AsignarEnExistente(cs: seq<Campo>, k: string, v: Valor, i: nat)
    requires i < |cs| && cs[i].clave == k
    ensures Map(AsignarEn(cs, k, v), (c: Campo) => c.clave) == Map(cs, (c: Campo) => c.clave)
  {
    var r := AsignarEn(cs, k, v);
    if cs[0].clave == k {
      assert r[1..] == cs[1..];
      assert Map(r, (c: Campo) => c.clave) == Map(cs, (c: Campo) => c.clave);
    } else {
      AsignarEnExistente(cs[1..], k, v, i - 1);
      assert r == [cs[0]] + AsignarEn(cs[1..], k, v);
      assert Map(r, (c: Campo) => c.clave) == Map(cs, (c: Campo) => c.clave);
    }
  }

  /** Assigning a new key appends it. */
  lemma {:induction false} AsignarEnNueva(cs: seq<Campo>, k: string, v: Valor)
    requires forall i :: 0 <= i < |cs| ==> cs[i].clave != k
    ensures AsignarEn(cs, k, v) == cs + [Campo(k, v)]
  {
    if cs != [] {
      assert forall i :: 0 <= i < |cs[1..]| ==> cs[1..][i].clave != k;
      AsignarEnNueva(cs[1..], k, v);
      assert cs == [cs[0]] + cs[1..];
    }
  }

  lemma {:induction false} AsignarEnUnicos(cs: seq<Campo>, k: string, v: Valor)
    requires Unicos(cs)
    ensures Unicos(AsignarEn(cs, k, v))
  {
    var r := AsignarEn(cs, k, v);
    if cs == [] {
    } else if cs[0].clave == k {
      assert r[1..] == cs[1..];
      assert forall i :: 1 <= i < |cs| ==> cs[i].clave != k;
    } else {
      var t := AsignarEn(cs[1..], k, v);
      AsignarEnUnicos(cs[1..], k, v);
      AsignarEnEntradas(cs[1..], k, v);
      assert r == [cs[0]] + t;
      forall j | 0 <= j < |t| ensures t[j].clave != cs[0].clave {
        if t[j].clave != k {
          var i :| 0 <= i < |cs[1..]| && cs[1..][i] == t[j];
          assert cs[i + 1] == t[j];
        }
      }
    }
  }

  lemma {:induction false} AsignarEnLeer(cs: seq<Campo>, k: string, v: Valor)
    ensures LeerEn(AsignarEn(cs, k, v), k) == v
    ensures forall k' :: k' != k ==> LeerEn(AsignarEn(cs, k, v), k') == LeerEn(cs, k')
  {
    var r := AsignarEn(cs, k, v);
    if cs == [] {
      assert r[1..] == [];
    } else if cs[0].clave == k {
      assert r[1..] == cs[1..];
    } else {
      AsignarEnLeer(cs[1..], k, v);
      assert r[1..] == AsignarEn(cs[1..], k, v);
    }
  }

  /** `{ ...f, [k]: v }`: an existing key keeps its place and takes the new
      value; a new key goes last. Every other key keeps its value. */
  function Asignar(f: Formulario, k: string, v: Valor): (g: Formulario)
    requires Valido(f)
    ensures Valido(g)
    ensures Leer(g, k) == v
    ensures forall k' :: k' != k ==> Leer(g, k') == Leer(f, k')
    ensures k in Claves(f) ==> Claves(g) == Claves(f)
    ensures k !in Claves(f) ==> Claves(g) == Claves(f) + [k]
  {
    AsignarEnUnicos(f.campos, k, v);
    AsignarEnLeer(f.campos, k, v);
    var g := Formulario(AsignarEn(f.campos, k, v));
    if k in Claves(f) then
      var i :| 0 <= i < |f.campos| && f.campos[i].clave == k;
      AsignarEnExistente(f.campos, k, v, i);
      g
    else
      AsignarEnNueva(f.campos, k, v);
      assert Claves(g) == Claves(f) + [k];
      g
  }

  /** The form's eight keys, in the order the page writes them. */
  const Nombres := ["nombre", "email", "telefono", "direccion", "estado", "notas", "busqueda", "cv"]

  function Formar(vs: seq<Valor>): (f: Formulario)
    requires |vs| == |Nombres|
    ensures Valido(f) && Claves(f) == Nombres
    ensures forall i :: 0 <= i < |Nombres| ==> Leer(f, Nombres[i]) == vs[i]
  {
    var f := Formulario(seq(|Nombres|, i requires 0 <= i < |Nombres| => Campo(Nombres[i], vs[i])));
    assert Claves(f) == Nombres;
    f
  }

  /** The eight fields set to `''` (lines 13-16 and 42). */
  function FormVacio(): (f: Formulario)
    ensures Valido(f) && Claves(f) == Nombres
    ensures forall i :: 0 <= i < |Nombres| ==> Leer(f, Nombres[i]) == Cadena("")
  {
    Formar(seq(8, _ => Cadena("")))
  }

  /** A nullable record field as a form value. */
  function ValorDe(o: Option<string>): Valor {
    if o.Some? then Cadena(o.value) else Nulo
  }

  function TextoOVacio(o: Option<string>): Valor {
    Cadena(OrVacio(o))
  }

  /** `editData` as `abrirEditar` fills it (lines 51-60): `email` and
      `busqueda` are copied as they are, the other optional fields default to
      `''`. */
  function FormDesde(p: Postulante): (f: Formulario)
    ensures Valido(f) && Claves(f) == Nombres
    ensures Leer(f, "nombre") == Cadena(p.nombre)
    ensures Leer(f, "email") == ValorDe(p.email) && Leer(f, "busqueda") == ValorDe(p.busqueda)
    ensures Leer(f, "telefono") == Cadena(OrVacio(p.telefono)) && Leer(f, "direccion") == Cadena(OrVacio(p.direccion))
    ensures Leer(f, "estado") == Cadena(OrVacio(p.estado)) && Leer(f, "notas") == Cadena(OrVacio(p.notas))
    ensures Leer(f, "cv") == Cadena(OrVacio(p.cv))
  {
    var f := Formar([Cadena(p.nombre), ValorDe(p.email), TextoOVacio(p.telefono), TextoOVacio(p.direccion),
                     TextoOVacio(p.estado), TextoOVacio(p.notas), ValorDe(p.busqueda), TextoOVacio(p.cv)]);
    assert Nombres[0] == "nombre" && Nombres[1] == "email" && Nombres[2] == "telefono" && Nombres[3] == "direccion";
    assert Nombres[4] == "estado" && Nombres[5] == "notas" && Nombres[6] == "busqueda" && Nombres[7] == "cv";
    f
  }

  /** A change event: the input's `name`, its `value` and the names of the
      files chosen in it. */
  datatype Evento = Evento(nombre: string, valor: string, archivos: seq<string>)

  /** The value the change handlers store (lines 21-26 and 64-69): the first
      chosen file for `cv` (`undefined` when none), the typed text otherwise. */
  function ValorDelEvento(e: Evento): (v: Valor)
    ensures e.nombre == "cv" && |e.archivos| > 0 ==> v == Archivo(e.archivos[0])
    ensures e.nombre == "cv" && |e.archivos| == 0 ==> v == Indefinido
    ensures e.nombre != "cv" ==> v == Cadena(e.valor)
  {
    if e.nombre == "cv" then (if |e.archivos| > 0 then Archivo(e.archivos[0]) else Indefinido)
    else Cadena(e.valor)
  }

  const MensajeObligatorios := "Completa los campos obligatorios"
  const MensajeAgregado := "Postulante agregado correctamente"
  const MensajeErrorAlta := "Error al agregar postulante"
  const MensajeEditado := "Postulante editado correctamente"

  /** The required fields (lines 31 and 74). */
  predicate Completo(f: Formulario)
    requires Valido(f)
  {
    Verdadero(Leer(f, "nombre")) && Verdadero(Leer(f, "email")) && Verdadero(Leer(f, "busqueda"))
  }

  /** A part of a multipart body: `append` sends a `File` as a file and turns
      any other value into text. */
  datatype Parte = Texto(texto: string) | Fichero(nombre: string)

  datatype Entrada = Entrada(clave: string, parte: Parte)

  function Convertir(v: Valor): (p: Parte)
    ensures v.Archivo? <==> p.Fichero?
  {
    match v
    case Cadena(s) => Texto(s)
    case Numero(n) => Texto(MostrarEntero(n))
    case Nulo => Texto("null")
    case Indefinido => Texto("undefined")
    case Archivo(nombre) => Fichero(nombre)
  }

  /** The entries of the `FormData` built from `f`. */
  function EntradasDe(f: Formulario): (es: seq<Entrada>)
    ensures |es| == |f.campos|
  {
    Map(f.campos, (c: Campo) => Entrada(c.clave, Convertir(c.valor)))
  }

  /** The `FormData` has one entry per key of the form, in key order, holding
      that key's value. */
  lemma EntradasCompletas(f: Formulario)
    requires Valido(f)
    ensures Map(EntradasDe(f), (e: Entrada) => e.clave) == Claves(f)
    ensures forall i :: 0 <= i < |f.campos| ==>
              EntradasDe(f)[i] == Entrada(Claves(f)[i], Convertir(Leer(f, Claves(f)[i])))
  {
    assert Map(EntradasDe(f), (e: Entrada) => e.clave) == Claves(f);
  }

  /** `Object.keys(f).forEach((key) => formData.append(key, f[key]))`
      (lines 36-39 and 78-81). */
  method ArmarFormData(f: Formulario) returns (fd: seq<Entrada>)
    requires Valido(f)
    ensures fd == EntradasDe(f)
  {
    var claves := Claves(f);
    fd := [];
    var i := 0;
    while i < |claves|
      invariant 0 <= i <= |claves|
      invariant fd == EntradasDe(Formulario(f.campos[..i]))
    {
      fd := fd + [Entrada(claves[i], Convertir(Leer(f, claves[i])))];
      i := i + 1;
    }
    assert f.campos[..i] == f.campos;
  }

  /** The search condition of lines 98-102. */
  predicate CoincidePostulante(texto: string, p: Postulante) {
    || CoincideSinMayus(p.nombre, texto)
    || (Presente(p.email) && CoincideSinMayus(p.email.value, texto))
    || (Presente(p.busqueda) && CoincideSinMayus(p.busqueda.value, texto))
  }

  /** `postulantesFiltrados` (lines 98-102). */
  function PostulantesFiltrados(ps: seq<Postulante>, texto: string): (r: seq<Postulante>)
    ensures forall i :: 0 <= i < |r| ==> r[i] in ps && CoincidePostulante(texto, r[i])
    ensures forall i :: 0 <= i < |ps| && CoincidePostulante(texto, ps[i]) ==> ps[i] in r
  {
    Filter(ps, (p: Postulante) => CoincidePostulante(texto, p))
  }

  /** The filter keeps the relative order of the applicants it keeps. */
  lemma PostulantesEnOrden(a: seq<Postulante>, b: seq<Postulante>, texto: string)
    ensures PostulantesFiltrados(a + b, texto) == PostulantesFiltrados(a, texto) + PostulantesFiltrados(b, texto)
  {
    FilterConcat(a, b, (p: Postulante) => CoincidePostulante(texto, p));
  }

  /** An empty search text keeps every applicant. */
  lemma PostulantesSinTexto(ps: seq<Postulante>)
    ensures PostulantesFiltrados(ps, "") == ps
  {
    forall i | 0 <= i < |ps| ensures CoincidePostulante("", ps[i]) {
      CoincideVacio(ps[i].nombre);
    }
    FilterTodos(ps, (p: Postulante) => CoincidePostulante("", p));
  }

  /** The page's state (lines 9-18). */
  class PaginaPostulantes {
    var mostrarFormulario: bool
    var busquedaTexto: string
    var editando: Option<int>
    var nuevo: Formulario
    var editData: Formulario

    predicate Formularios()
      reads this
    {
      Valido(nuevo) && Valido(editData)
    }

    constructor ()
      ensures Formularios()
      ensures !mostrarFormulario && busquedaTexto == "" && editando == None
      ensures nuevo == FormVacio() && editData == FormVacio()
    {
      mostrarFormulario := false;
      busquedaTexto := "";
      editando := None;
      nuevo := FormVacio();
      editData := FormVacio();
    }

    /** `handleChange` (lines 20-27). */
    method HandleChange(e: Evento)
      requires Formularios()
      modifies this
      ensures Formularios()
      ensures nuevo == Asignar(old(nuevo), e.nombre, ValorDelEvento(e))
      ensures editData == old(editData) && editando == old(editando)
      ensures mostrarFormulario == old(mostrarFormulario) && busquedaTexto == old(busquedaTexto)
    {
      nuevo := Asignar(nuevo, e.nombre, ValorDelEvento(e));
    }

    /** `handleEditChange` (lines 63-70). */
    method HandleEditChange(e: Evento)
      requires Formularios()
      modifies this
      ensures Formularios()
      ensures editData == Asignar(old(editData), e.nombre, ValorDelEvento(e))
      ensures nuevo == old(nuevo) && editando == old(editando)
      ensures mostrarFormulario == old(mostrarFormulario) && busquedaTexto == old(busquedaTexto)
    {
      editData := Asignar(editData, e.nombre, ValorDelEvento(e));
    }

    /** `handleSubmit` (lines 29-47). `agregado` says whether
        `agregarPostulante` resolved or threw. */
    method HandleSubmit(agregado: bool) returns (enviado: Option<seq<Entrada>>, aviso: Aviso)
      requires Formularios()
      modifies this
      ensures Formularios()
      ensures !Completo(old(nuevo)) ==>
                enviado == None && aviso == Error(MensajeObligatorios) &&
                nuevo == old(nuevo) && mostrarFormulario == old(mostrarFormulario)
      ensures Completo(old(nuevo)) ==> enviado == Some(EntradasDe(old(nuevo)))
      ensures enviado.Some? && agregado ==> aviso == Exito(MensajeAgregado) && nuevo == FormVacio() && !mostrarFormulario
      ensures enviado.Some? && !agregado ==>
                aviso == Error(MensajeErrorAlta) && nuevo == old(nuevo) && mostrarFormulario == old(mostrarFormulario)
      ensures editando == old(editando) && editData == old(editData) && busquedaTexto == old(busquedaTexto)
    {
      if !Completo(nuevo) {
        return None, Error(MensajeObligatorios);
      }
      var fd := ArmarFormData(nuevo);
      enviado := Some(fd);
      if agregado {
        aviso := Exito(MensajeAgregado);
        nuevo := FormVacio();
        mostrarFormulario := false;
      } else {
        aviso := Error(MensajeErrorAlta);
      }
    }

    /** `abrirEditar` (lines 49-61). */
    method AbrirEditar(p: Postulante)
      requires Formularios()
      modifies this
      ensures Formularios()
      ensures editando == Some(p.id) && editData == FormDesde(p)
      ensures nuevo == old(nuevo) && mostrarFormulario == old(mostrarFormulario) && busquedaTexto == old(busquedaTexto)
    {
      editando := Some(p.id);
      editData := FormDesde(p);
    }

    /** `handleEditSubmit` (lines 72-89). */
    method HandleEditSubmit(resultado: Resultado) returns (enviado: Option<(Option<int>, seq<Entrada>)>, aviso: Aviso)
      requires Formularios()
      modifies this
      ensures Formularios()
      ensures !Completo(old(editData)) ==>
                enviado == None && aviso == Error(MensajeObligatorios) && editando == old(editando)
      ensures Completo(old(editData)) ==> enviado == Some((old(editando), EntradasDe(old(editData))))
      ensures enviado.Some? && resultado.success ==> aviso == Exito(MensajeEditado) && editando == None
      ensures enviado.Some? && !resultado.success ==> aviso == Error(resultado.error) && editando == old(editando)
      ensures editData == old(editData) && nuevo == old(nuevo)
      ensures mostrarFormulario == old(mostrarFormulario) && busquedaTexto == old(busquedaTexto)
    {
      if !Completo(editData) {
        return None, Error(MensajeObligatorios);
      }
      var fd := ArmarFormData(editData);
      enviado := Some((editando, fd));
      if resultado.success {
        aviso := Exito(MensajeEditado);
        editando := None;
      } else {
        aviso := Error(resultado.error);
      }
    }
  }
}
