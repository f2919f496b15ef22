/** The recruiting-search page: the required-field and date-order checks of
    the create and edit forms, the form reset, the defaults `abrirEditar`
    fills in, and the search filter. */
module Busquedas {
  import opened Comun
  import opened Texto
  import opened Registros

  /** The eight text fields of the form (lines 14-17). */
  datatype FormBusqueda = FormBusqueda(
    nombre: string,
    puesto: string,
    descripcion: string,
    fechaApertura: string,
    fechaInicio: string,
    estado: string,
    responsable: string,
    centroCosto: string)

  const FormVacio := FormBusqueda("", "", "", "", "", "", "", "")

  const MensajeObligatorios := "Completa los campos obligatorios"
  const MensajeFechas := "La fecha de inicio no puede ser posterior a la fecha estimada de incorporación"
  const MensajeAgregada := "Búsqueda agregada correctamente"
  const MensajeErrorAlta := "Error al agregar búsqueda"
  const MensajeEditada := "Búsqueda editada correctamente"

  predicate Completo(f: FormBusqueda) {
    f.nombre != "" && f.puesto != "" && f.fechaApertura != "" && f.fechaInicio != ""
  }

  /** The two checks shared by create and edit (lines 40-47 and 77-84): the
      message of the first that fails, or nothing. The opening date must not
      be after the expected start date. */
  function Validar(f: FormBusqueda): (error: Option<string>)
    ensures error.None? <==> Completo(f) && !Posterior(f.fechaApertura, f.fechaInicio)
    ensures !Completo(f) ==> error == Some(MensajeObligatorios)
    ensures Completo(f) && Posterior(f.fechaApertura, f.fechaInicio) ==> error == Some(MensajeFechas)
  {
    if !Completo(f) then Some(MensajeObligatorios)
    else if Posterior(f.fechaApertura, f.fechaInicio) then Some(MensajeFechas)
    else None
  }

  /** Equal dates pass; of a complete form and the same form with the two
      dates swapped, at least one passes. */
  lemma FechasIguales(f: FormBusqueda)
    requires Completo(f)
    ensures f.fechaApertura == f.fechaInicio ==> Validar(f).None?
    ensures Validar(f).Some? ==> Validar(f.(fechaApertura := f.fechaInicio, fechaInicio := f.fechaApertura)).None?
  {
    PosteriorAsimetrico(f.fechaApertura, f.fechaInicio);
  }

  /** `editData` as `abrirEditar` fills it (lines 61-69): the optional text
      fields default to `''`. */
  function FormDesde(b: Busqueda): (f: FormBusqueda)
    ensures f.nombre == b.nombre && f.puesto == b.puesto
    ensures f.fechaApertura == b.fechaApertura && f.fechaInicio == b.fechaInicio
    ensures f.descripcion == OrVacio(b.descripcion) && f.estado == OrVacio(b.estado)
    ensures f.responsable == OrVacio(b.responsable) && f.centroCosto == OrVacio(b.centroCosto)
  {
    FormBusqueda(b.nombre, b.puesto, OrVacio(b.descripcion), b.fechaApertura, b.fechaInicio,
                 OrVacio(b.estado), OrVacio(b.responsable), OrVacio(b.centroCosto))
  }

  /** The search condition of lines 101-106. */
  predicate CoincideBusqueda(texto: string, b: Busqueda) {
    || CoincideSinMayus(b.nombre, texto)
    || CoincideSinMayus(b.puesto, texto)
    || (Presente(b.responsable) && CoincideSinMayus(b.responsable.value, texto))
    || (Presente(b.centroCosto) && CoincideSinMayus(b.centroCosto.value, texto))
  }

  /** `busquedasFiltradas` (lines 101-106). */
  function BusquedasFiltradas(bs: seq<Busqueda>, texto: string): (r: seq<Busqueda>)
    ensures forall i :: 0 <= i < |r| ==> r[i] in bs && CoincideBusqueda(texto, r[i])
    ensures forall i :: 0 <= i < |bs| && CoincideBusqueda(texto, bs[i]) ==> bs[i] in r
  {
    Filter(bs, (b: Busqueda) => CoincideBusqueda(texto, b))
  }

  /** The filter keeps the relative order of the searches it keeps. */
  lemma BusquedasEnOrden(a: seq<Busqueda>, b: seq<Busqueda>, texto: string)
    ensures BusquedasFiltradas(a + b, texto) == BusquedasFiltradas(a, texto) + BusquedasFiltradas(b, texto)
  {
    FilterConcat(a, b, (x: Busqueda) => CoincideBusqueda(texto, x));
  }

  /** An empty search text keeps every search. */
  lemma BusquedasSinTexto(bs: seq<Busqueda>)
    ensures BusquedasFiltradas(bs, "") == bs
  {
    forall i | 0 <= i < |bs| ensures CoincideBusqueda("", bs[i]) {
      CoincideVacio(bs[i].nombre);
    }
    FilterTodos(bs, (x: Busqueda) => CoincideBusqueda("", x));
  }

  /** The page's state (lines 10-18). */
  class PaginaBusquedas {
    var mostrarFormulario: bool
    var editando: Option<int>
    var busquedaTexto: string
    var nueva: FormBusqueda
    var editData: FormBusqueda

    constructor ()
      ensures !mostrarFormulario && editando == None && busquedaTexto == ""
      ensures nueva == FormVacio && editData == FormVacio
    {
      mostrarFormulario := false;
      editando := None;
      busquedaTexto := "";
      nueva := FormVacio;
      editData := FormVacio;
    }

    /** `handleSubmit` (lines 38-59): the form is sent as it is. `agregada`
        says whether `agregarBusqueda` resolved or threw. */
    method HandleSubmit(agregada: bool) returns (enviado: Option<FormBusqueda>, aviso: Aviso)
      modifies this
      ensures Validar(old(nueva)).Some? ==>
                enviado == None && aviso == Error(Validar(old(nueva)).value) &&
                nueva == old(nueva) && mostrarFormulario == old(mostrarFormulario)
      ensures Validar(old(nueva)).None? ==> enviado == Some(old(nueva))
      ensures enviado.Some? && agregada ==> aviso == Exito(MensajeAgregada) && nueva == FormVacio && !mostrarFormulario
      ensures enviado.Some? && !agregada ==>
                aviso == Error(MensajeErrorAlta) && nueva == old(nueva) && mostrarFormulario == old(mostrarFormulario)
      ensures editando == old(editando) && editData == old(editData) && busquedaTexto == old(busquedaTexto)
    {
      var error := Validar(nueva);
      if error.Some? {
        return None, Error(error.value);
      }
      enviado := Some(nueva);
      if agregada {
        aviso := Exito(MensajeAgregada);
        nueva := FormVacio;
        mostrarFormulario := false;
      } else {
        aviso := Error(MensajeErrorAlta);
      }
    }

    /** `abrirEditar` (lines 61-69). */
    method AbrirEditar(b: Busqueda)
      modifies this
      ensures editando == Some(b.id) && editData == FormDesde(b)
      ensures nueva == old(nueva) && mostrarFormulario == old(mostrarFormulario) && busquedaTexto == old(busquedaTexto)
    {
      editando := Some(b.id);
      editData := FormDesde(b);
    }

    /** `handleEditSubmit` (lines 75-92): `editData` is sent as it is. */
    method HandleEditSubmit(resultado: Resultado) returns (enviado: Option<(Option<int>, FormBusqueda)>, aviso: Aviso)
      modifies this
      ensures Validar(old(editData)).Some? ==>
                enviado == None && aviso == Error(Validar(old(editData)).value) && editando == old(editando)
      ensures Validar(old(editData)).None? ==> enviado == Some((old(editando), old(editData)))
      ensures enviado.Some? && resultado.success ==> aviso == Exito(MensajeEditada) && editando == None
      ensures enviado.Some? && !resultado.success ==> aviso == Error(resultado.error) && editando == old(editando)
      ensures editData == old(editData) && nueva == old(nueva)
      ensures mostrarFormulario == old(mostrarFormulario) && busquedaTexto == old(busquedaTexto)
    {
      var error := Validar(editData);
      if error.Some? {
        return None, Error(error.value);
      }
      enviado := Some((editando, editData));
      if resultado.success {
        aviso := Exito(MensajeEditada);
        editando := None;
      } else {
        aviso := Error(resultado.error);
      }
    }
  }
}
