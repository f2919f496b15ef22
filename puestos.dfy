/** The positions page: the create and edit forms with their checks and the
    normalisation of `jefe_id`, the search filter, and the "Puesto Superior"
    column of the table. */
module Puestos {
  import opened Comun
  import opened Texto
  import opened Registros
  import opened Organigrama

  /** The form state `{ nombre, descripcion, jefe_id }`. `jefe_id` holds the
      text of the chosen `<option>` (`''` for none), or the number
      `abrirEditar` copied from the record. */
  datatype FormPuesto = FormPuesto(nombre: string, descripcion: string, jefeId: Valor)

  /** `{ nombre: '', descripcion: '', jefe_id: '' }`. */
  const FormVacio := FormPuesto("", "", Cadena(""))

  /** The object handed to the store: the form's fields, with `jefe_id`
      replaced by `null` (`None`) or by what `parseInt` gives. */
  datatype DatosPuesto = DatosPuesto(nombre: string, descripcion: string, jefeId: Option<Entero>)

  const MensajeNombreObligatorio := "El nombre del puesto es obligatorio"
  const MensajeAgregado := "Puesto agregado correctamente"
  const MensajeErrorAlta := "Error al agregar puesto"
  const MensajeEditado := "Puesto editado correctamente"

  /** `{ ...form, jefe_id: form.jefe_id === '' ? null : parseInt(form.jefe_id) }`
      (lines 28-31 and 61-64). */
  function Payload(f: FormPuesto): (d: DatosPuesto)
    ensures d.nombre == f.nombre && d.descripcion == f.descripcion
    ensures d.jefeId.None? <==> f.jefeId == Cadena("")
    ensures d.jefeId.Some? ==> d.jefeId.value == ParseIntValor(f.jefeId)
  {
    DatosPuesto(f.nombre, f.descripcion, if f.jefeId == Cadena("") then None else Some(ParseIntValor(f.jefeId)))
  }

  /** What a submit sends: nothing when `nombre` is empty (lines 24-27 and
      57-60), the payload otherwise. */
  function Envio(f: FormPuesto): (r: Option<DatosPuesto>)
    ensures r.None? <==> f.nombre == ""
    ensures r.Some? ==> r.value == Payload(f)
  {
    if f.nombre == "" then None else Some(Payload(f))
  }

  /** Choosing the option of the position with id `n` (whose value is the text
      of `n`) sends `jefe_id` as the number `n`. */
  lemma ElegirJefe(f: FormPuesto, n: int)
    requires f.jefeId == Cadena(MostrarEntero(n))
    ensures Payload(f).jefeId == Some(Num(n))
  {
    ParseIntMostrar(n);
  }

  /** `editData` as `abrirEditar` fills it (lines 44-48): `descripcion || ''`
      and `jefe_id || ''`. */
  function FormDesde(p: Puesto): (f: FormPuesto)
    ensures f.nombre == p.nombre
    ensures f.descripcion == OrVacio(p.descripcion)
    ensures TieneJefe(p) ==> f.jefeId == Numero(p.jefeId.value)
    ensures !TieneJefe(p) ==> f.jefeId == Cadena("")
  {
    FormPuesto(p.nombre, OrVacio(p.descripcion), if TieneJefe(p) then Numero(p.jefeId.value) else Cadena(""))
  }

  /** Opening a position for edit and saving it untouched sends back the same
      boss; a boss of `0` goes back as `null`. */
  lemma EditarSinCambios(p: Puesto)
    ensures Payload(FormDesde(p)).jefeId == if TieneJefe(p) then Some(Num(p.jefeId.value)) else None
  {
    if TieneJefe(p) {
      ParseIntMostrar(p.jefeId.value);
    }
  }

  /** The search condition of lines 81-84: the text, ignoring case, occurs in
      `nombre`, or in a truthy `descripcion`. */
  predicate CoincidePuesto(texto: string, p: Puesto) {
    CoincideSinMayus(p.nombre, texto) || (Presente(p.descripcion) && CoincideSinMayus(p.descripcion.value, texto))
  }

  /** `puestosFiltrados` (lines 81-84). */
  function PuestosFiltrados(ps: seq<Puesto>, texto: string): (r: seq<Puesto>)
    ensures forall i :: 0 <= i < |r| ==> r[i] in ps && CoincidePuesto(texto, r[i])
    ensures forall i :: 0 <= i < |ps| && CoincidePuesto(texto, ps[i]) ==> ps[i] in r
  {
    Filter(ps, (p: Puesto) => CoincidePuesto(texto, p))
  }

  /** The filter keeps the relative order of the positions it keeps. */
  lemma PuestosFiltradosOrden(a: seq<Puesto>, b: seq<Puesto>, texto: string)
    ensures PuestosFiltrados(a + b, texto) == PuestosFiltrados(a, texto) + PuestosFiltrados(b, texto)
  {
    FilterConcat(a, b, (p: Puesto) => CoincidePuesto(texto, p));
  }

  /** An empty search text keeps every position. */
  lemma PuestosSinTexto(ps: seq<Puesto>)
    ensures PuestosFiltrados(ps, "") == ps
  {
    forall i | 0 <= i < |ps| ensures CoincidePuesto("", ps[i]) {
      CoincideVacio(ps[i].nombre);
    }
    FilterTodos(ps, (p: Puesto) => CoincidePuesto("", p));
  }

  predicate EsJefeDe(j: Puesto, p: Puesto) {
    Some(j.id) == p.jefeId
  }

  /** The "Puesto Superior" cell (lines 158 and 163): the name of the first
      position whose id is strictly equal to `p.jefe_id`, or `'-'`. */
  function NombreJefe(ps: seq<Puesto>, p: Puesto): (r: string)
    ensures (forall i :: 0 <= i < |ps| ==> !EsJefeDe(ps[i], p)) ==> r == "-"
    ensures forall i :: 0 <= i < |ps| && EsJefeDe(ps[i], p) && (forall j :: 0 <= j < i ==> !EsJefeDe(ps[j], p)) ==>
              r == ps[i].nombre
  {
    var jefe := Find(ps, (j: Puesto) => EsJefeDe(j, p));
    if jefe.Some? then jefe.value.nombre else "-"
  }

  /** With unique ids the table and the org chart agree: a position drawn
      under node `k` shows `k`'s name as its superior. */
  lemma {:induction false} JefeComoEnOrganigrama(ps: seq<Puesto>, i: nat, k: int)
    requires IdsUnicos(ps) && i < |ps| && k in Ids(ps) && ps[i].id in HijosDe(ps, k)
    ensures NombreJefe(ps, ps[i]) == Ultimo(ps, k).nombre
  {
    UbicacionUnica(ps, ps[i].id);
    UltimoUnico(ps, i);
    var q := Ultimo(ps, k);
    var m :| 0 <= m < |ps| && ps[m] == q && q.id == k && forall j :: m < j < |ps| ==> ps[j].id != k;
    assert EsJefeDe(ps[m], ps[i]);
  }

  /** The page's state: the create form `nuevo`, whether it is shown, the id
      being edited (`null` when none), the edit form and the search text. */
  class PaginaPuestos {
    var nuevo: FormPuesto
    var mostrarFormulario: bool
    var editando: Option<int>
    var editData: FormPuesto
    var busquedaTexto: string

    /** The initial state (lines 8-16). */
    constructor ()
      ensures nuevo == FormVacio && !mostrarFormulario && editando == None
      ensures editData == FormVacio && busquedaTexto == ""
    {
      nuevo := FormVacio;
      mostrarFormulario := false;
      editando := None;
      editData := FormVacio;
      busquedaTexto := "";
    }

    /** `handleSubmit` (lines 22-40). `agregado` says whether the store's
        `agregarPuesto` resolved (`true`) or threw (`false`); it is not
        consulted when nothing is sent. */
    method HandleSubmit(agregado: bool) returns (enviado: Option<DatosPuesto>, aviso: Aviso)
      modifies this
      ensures enviado == Envio(old(nuevo))
      ensures enviado.None? ==>
                aviso == Error(MensajeNombreObligatorio) && nuevo == old(nuevo) && mostrarFormulario == old(mostrarFormulario)
      ensures enviado.Some? && agregado ==> aviso == Exito(MensajeAgregado) && nuevo == FormVacio && !mostrarFormulario
      ensures enviado.Some? && !agregado ==>
                aviso == Error(MensajeErrorAlta) && nuevo == old(nuevo) && mostrarFormulario == old(mostrarFormulario)
      ensures editando == old(editando) && editData == old(editData) && busquedaTexto == old(busquedaTexto)
    {
      if nuevo.nombre == "" {
        return None, Error(MensajeNombreObligatorio);
      }
      enviado := Some(Payload(nuevo));
      if agregado {
        aviso := Exito(MensajeAgregado);
        nuevo := FormVacio;
        mostrarFormulario := false;
      } else {
        aviso := Error(MensajeErrorAlta);
      }
    }

    /** `abrirEditar` (lines 42-49). */
    method AbrirEditar(p: Puesto)
      modifies this
      ensures editando == Some(p.id) && editData == FormDesde(p)
      ensures nuevo == old(nuevo) && mostrarFormulario == old(mostrarFormulario) && busquedaTexto == old(busquedaTexto)
    {
      editando := Some(p.id);
      editData := FormDesde(p);
    }

    /** `handleEditSubmit` (lines 55-72): `editarPuesto(editando, datos)`
        resolves to `resultado`. A success closes the edit form; a failure
        keeps it open and reports the store's error text. */
    method HandleEditSubmit(resultado: Resultado) returns (enviado: Option<(Option<int>, DatosPuesto)>, aviso: Aviso)
      modifies this
      ensures Envio(old(editData)).None? ==>
                enviado == None && aviso == Error(MensajeNombreObligatorio) && editando == old(editando)
      ensures Envio(old(editData)).Some? ==> enviado == Some((old(editando), Envio(old(editData)).value))
      ensures enviado.Some? && resultado.success ==> aviso == Exito(MensajeEditado) && editando == None
      ensures enviado.Some? && !resultado.success ==> aviso == Error(resultado.error) && editando == old(editando)
      ensures editData == old(editData) && nuevo == old(nuevo)
      ensures mostrarFormulario == old(mostrarFormulario) && busquedaTexto == old(busquedaTexto)
    {
      if editData.nombre == "" {
        return None, Error(MensajeNombreObligatorio);
      }
      enviado := Some((editando, Payload(editData)));
      if resultado.success {
        aviso := Exito(MensajeEditado);
        editando := None;
      } else {
        aviso := Error(resultado.error);
      }
    }
  }
}
