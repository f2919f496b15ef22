/** The leave page: the required-field and date-order checks of the create
    and edit forms, the conversion of `empleado_id` on edit, the two-part
    filter and the employee column of the table. */
module Licencias {
  import opened Comun
  import opened Texto
  import opened Registros

  /** The form state. `empleadoId` holds the text of the chosen `<option>`,
      or the number `abrirEditar` copied from the record; the dates are the
      `yyyy-mm-dd` texts of the date inputs. */
  datatype FormLicencia = FormLicencia(
    empleadoId: Valor,
    tipo: string,
    fechaInicio: string,
    fechaFin: string,
    observaciones: string)

  /** The five fields set to `''` (lines 10-16 and 41). */
  const FormVacio := FormLicencia(Cadena(""), "", "", "", "")

  /** What an edit sends: the form with `empleado_id` through `parseInt`. */
  datatype DatosLicencia = DatosLicencia(
    empleadoId: Entero,
    tipo: string,
    fechaInicio: string,
    fechaFin: string,
    observaciones: string)

  const MensajeRequeridos := "Completa todos los campos requeridos"
  const MensajeFechas := "La fecha de inicio no puede ser posterior a la fecha de fin"
  const MensajeAgregada := "Licencia agregada correctamente"
  const MensajeErrorAlta := "Error al agregar licencia"
  const MensajeEditada := "Licencia editada correctamente"

  predicate Completo(f: FormLicencia) {
    Verdadero(f.empleadoId) && f.tipo != "" && f.fechaInicio != "" && f.fechaFin != ""
  }

  /** The two checks shared by create and edit (lines 30-37 and 65-72): the
      message of the first that fails, or nothing. */
  function Validar(f: FormLicencia): (error: Option<string>)
    ensures error.None? <==> Completo(f) && !Posterior(f.fechaInicio, f.fechaFin)
    ensures !Completo(f) ==> error == Some(MensajeRequeridos)
    ensures Completo(f) && Posterior(f.fechaInicio, f.fechaFin) ==> error == Some(MensajeFechas)
  {
    if !Completo(f) then Some(MensajeRequeridos)
    else if Posterior(f.fechaInicio, f.fechaFin) then Some(MensajeFechas)
    else None
  }

  /** A leave that starts and ends on the same day passes, and of two
      complete forms with swapped dates at least one passes. */
  lemma FechasIguales(f: FormLicencia)
    requires Completo(f)
    ensures f.fechaInicio == f.fechaFin ==> Validar(f).None?
    ensures Validar(f).Some? ==> Validar(f.(fechaInicio := f.fechaFin, fechaFin := f.fechaInicio)).None?
  {
    PosteriorAsimetrico(f.fechaInicio, f.fechaFin);
  }

  /** `{ ...editData, empleado_id: parseInt(editData.empleado_id) }` (lines 73-76). */
  function DatosEditados(f: FormLicencia): (d: DatosLicencia)
    ensures d.empleadoId == ParseIntValor(f.empleadoId)
    ensures d.tipo == f.tipo && d.fechaInicio == f.fechaInicio && d.fechaFin == f.fechaFin
    ensures d.observaciones == f.observaciones
  {
    DatosLicencia(ParseIntValor(f.empleadoId), f.tipo, f.fechaInicio, f.fechaFin, f.observaciones)
  }

  /** `editData` as `abrirEditar` fills it (lines 50-56). */
  function FormDesde(l: Licencia): (f: FormLicencia)
    ensures f.empleadoId == Numero(l.empleadoId) && f.tipo == l.tipo
    ensures f.fechaInicio == l.fechaInicio && f.fechaFin == l.fechaFin
    ensures f.observaciones == OrVacio(l.observaciones)
  {
    FormLicencia(Numero(l.empleadoId), l.tipo, l.fechaInicio, l.fechaFin, OrVacio(l.observaciones))
  }

  /** Saving an opened leave untouched sends back its own employee. */
  lemma EditarSinCambios(l: Licencia)
    ensures DatosEditados(FormDesde(l)).empleadoId == Num(l.empleadoId)
  {
    ParseIntMostrar(l.empleadoId);
  }

  /** `empleados.find((e) => e.id === l.empleado_id)` (lines 94 and 158). */
  function EmpleadoDe(es: seq<Empleado>, l: Licencia): (r: Option<Empleado>)
    ensures r.None? <==> forall i :: 0 <= i < |es| ==> es[i].id != l.empleadoId
    ensures forall i :: 0 <= i < |es| && es[i].id == l.empleadoId && (forall j :: 0 <= j < i ==> es[j].id != l.empleadoId) ==>
              r == Some(es[i])
  {
    Find(es, (e: Empleado) => e.id == l.empleadoId)
  }

  /** The employee cell (line 161). */
  function NombreEmpleado(es: seq<Empleado>, l: Licencia): (r: string)
    ensures EmpleadoDe(es, l).None? ==> r == "No encontrado"
    ensures EmpleadoDe(es, l).Some? ==>
              r == EmpleadoDe(es, l).value.apellido + ", " + EmpleadoDe(es, l).value.nombre
  {
    match EmpleadoDe(es, l)
    case None => "No encontrado"
    case Some(e) => e.apellido + ", " + e.nombre
  }

  /** `coincideTipo` (line 95). */
  predicate CoincideTipo(filtroTipo: string, l: Licencia) {
    filtroTipo == "" || CoincideSinMayus(l.tipo, filtroTipo)
  }

  /** `coincideEmpleado` (lines 96-98): the employee must exist and
      "apellido nombre" must contain the text. */
  predicate CoincideEmpleado(es: seq<Empleado>, filtroEmpleado: string, l: Licencia) {
    filtroEmpleado == "" ||
    (EmpleadoDe(es, l).Some? &&
     CoincideSinMayus(EmpleadoDe(es, l).value.apellido + " " + EmpleadoDe(es, l).value.nombre, filtroEmpleado))
  }

  predicate Coincide(es: seq<Empleado>, filtroTipo: string, filtroEmpleado: string, l: Licencia) {
    CoincideTipo(filtroTipo, l) && CoincideEmpleado(es, filtroEmpleado, l)
  }

  /** `licenciasFiltradas` (lines 93-100). */
  function LicenciasFiltradas(ls: seq<Licencia>, es: seq<Empleado>, filtroTipo: string, filtroEmpleado: string)
    : (r: seq<Licencia>)
    ensures forall i :: 0 <= i < |r| ==>
              r[i] in ls && CoincideTipo(filtroTipo, r[i]) && CoincideEmpleado(es, filtroEmpleado, r[i])
    ensures forall i :: 0 <= i < |ls| && Coincide(es, filtroTipo, filtroEmpleado, ls[i]) ==> ls[i] in r
    ensures filtroEmpleado != "" ==> forall i :: 0 <= i < |r| ==> EmpleadoDe(es, r[i]).Some?
  {
    Filter(ls, (l: Licencia) => Coincide(es, filtroTipo, filtroEmpleado, l))
  }

  /** The filter keeps the relative order of the leaves it keeps. */
  lemma LicenciasEnOrden(a: seq<Licencia>, b: seq<Licencia>, es: seq<Empleado>, filtroTipo: string, filtroEmpleado: string)
    ensures LicenciasFiltradas(a + b, es, filtroTipo, filtroEmpleado) ==
              LicenciasFiltradas(a, es, filtroTipo, filtroEmpleado) + LicenciasFiltradas(b, es, filtroTipo, filtroEmpleado)
  {
    FilterConcat(a, b, (l: Licencia) => Coincide(es, filtroTipo, filtroEmpleado, l));
  }

  /** With both filters empty every leave is listed, including those of
      unknown employees. */
  lemma SinFiltros(ls: seq<Licencia>, es: seq<Empleado>)
    ensures LicenciasFiltradas(ls, es, "", "") == ls
  {
    FilterTodos(ls, (l: Licencia) => Coincide(es, "", "", l));
  }

  /** The page's state (lines 10-22). */
  class PaginaLicencias {
    var nueva: FormLicencia
    var mostrarFormulario: bool
    var editando: Option<int>
    var editData: FormLicencia
    var filtroTipo: string
    var filtroEmpleado: string

    constructor ()
      ensures nueva == FormVacio && !mostrarFormulario && editando == None && editData == FormVacio
      ensures filtroTipo == "" && filtroEmpleado == ""
    {
      nueva := FormVacio;
      mostrarFormulario := false;
      editando := None;
      editData := FormVacio;
      filtroTipo := "";
      filtroEmpleado := "";
    }

    /** `handleSubmit` (lines 28-46): the form is sent as it is. `agregada`
        says whether `agregarLicencia` resolved or threw. */
    method HandleSubmit(agregada: bool) returns (enviado: Option<FormLicencia>, aviso: Aviso)
      modifies this
      ensures Validar(old(nueva)).Some? ==>
                enviado == None && aviso == Error(Validar(old(nueva)).value) &&
                nueva == old(nueva) && mostrarFormulario == old(mostrarFormulario)
      ensures Validar(old(nueva)).None? ==> enviado == Some(old(nueva))
      ensures enviado.Some? && agregada ==> aviso == Exito(MensajeAgregada) && nueva == FormVacio && !mostrarFormulario
      ensures enviado.Some? && !agregada ==>
                aviso == Error(MensajeErrorAlta) && nueva == old(nueva) && mostrarFormulario == old(mostrarFormulario)
      ensures editando == old(editando) && editData == old(editData)
      ensures filtroTipo == old(filtroTipo) && filtroEmpleado == old(filtroEmpleado)
    {
      var error := Validar(nueva);
      if error.Some? {
        return None, Error(error.value);
      }
      enviado := Some(nueva);
      if agregada {
        aviso := Exito(MensajeAgregada);
        nueva := FormVacio;
        mostrarFormulario := false;
      } else {
        aviso := Error(MensajeErrorAlta);
      }
    }

    /** `abrirEditar` (lines 48-57). */
    method AbrirEditar(l: Licencia)
      modifies this
      ensures editando == Some(l.id) && editData == FormDesde(l)
      ensures nueva == old(nueva) && mostrarFormulario == old(mostrarFormulario)
      ensures filtroTipo == old(filtroTipo) && filtroEmpleado == old(filtroEmpleado)
    {
      editando := Some(l.id);
      editData := FormDesde(l);
    }

    /** `handleEditSubmit` (lines 63-84). */
    method HandleEditSubmit(resultado: Resultado) returns (enviado: Option<(Option<int>, DatosLicencia)>, aviso: Aviso)
      modifies this
      ensures Validar(old(editData)).Some? ==>
                enviado == None && aviso == Error(Validar(old(editData)).value) && editando == old(editando)
      ensures Validar(old(editData)).None? ==> enviado == Some((old(editando), DatosEditados(old(editData))))
      ensures enviado.Some? && resultado.success ==> aviso == Exito(MensajeEditada) && editando == None
      ensures enviado.Some? && !resultado.success ==> aviso == Error(resultado.error) && editando == old(editando)
      ensures editData == old(editData) && nueva == old(nueva) && mostrarFormulario == old(mostrarFormulario)
      ensures filtroTipo == old(filtroTipo) && filtroEmpleado == old(filtroEmpleado)
    {
      var error := Validar(editData);
      if error.Some? {
        return None, Error(error.value);
      }
      enviado := Some((editando, DatosEditados(editData)));
      if resultado.success {
        aviso := Exito(MensajeEditada);
        editando := None;
      } else {
        aviso := Error(resultado.error);
      }
    }
  }
}
