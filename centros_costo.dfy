/** The cost-centre page: the required-name check of the create and edit
    forms, what each sends, and the search filter. */
module CentrosCosto {
  import opened Comun
  import opened Texto
  import opened Registros

  const MensajeObligatorio := "El nombre del centro de costo es obligatorio"
  const MensajeAgregado := "Centro de costo agregado correctamente"
  const MensajeErrorAlta := "Error al agregar centro de costo"
  const MensajeEditado := "Centro de costo editado correctamente"

  /** The only field of both forms. */
  datatype DatosCentro = DatosCentro(nombre: string)

  /** `centrosFiltrados` (lines 61-63). */
  function CentrosFiltrados(cs: seq<CentroCosto>, texto: string): (r: seq<CentroCosto>)
    ensures forall i :: 0 <= i < |r| ==> r[i] in cs && CoincideSinMayus(r[i].nombre, texto)
    ensures forall i :: 0 <= i < |cs| && CoincideSinMayus(cs[i].nombre, texto) ==> cs[i] in r
  {
    Filter(cs, (c: CentroCosto) => CoincideSinMayus(c.nombre, texto))
  }

  /** The filter keeps the relative order of the centres it keeps. */
  lemma CentrosEnOrden(a: seq<CentroCosto>, b: seq<CentroCosto>, texto: string)
    ensures CentrosFiltrados(a + b, texto) == CentrosFiltrados(a, texto) + CentrosFiltrados(b, texto)
  {
    FilterConcat(a, b, (c: CentroCosto) => CoincideSinMayus(c.nombre, texto));
  }

  /** An empty search text keeps every centre. */
  lemma CentrosSinTexto(cs: seq<CentroCosto>)
    ensures CentrosFiltrados(cs, "") == cs
  {
    forall i | 0 <= i < |cs| ensures CoincideSinMayus(cs[i].nombre, "") {
      CoincideVacio(cs[i].nombre);
    }
    FilterTodos(cs, (c: CentroCosto) => CoincideSinMayus(c.nombre, ""));
  }

  /** The page's state (lines 8-12); `nuevo` is `{ nombre }`, held here as
      its one field. */
  class PaginaCentrosCosto {
    var nuevo: string
    var mostrarFormulario: bool
    var editando: Option<int>
    var editNombre: string
    var busquedaTexto: string

    constructor ()
      ensures nuevo == "" && !mostrarFormulario && editando == None && editNombre == "" && busquedaTexto == ""
    {
      nuevo := "";
      mostrarFormulario := false;
      editando := None;
      editNombre := "";
      busquedaTexto := "";
    }

    /** `handleChange` (lines 14-16) on the form's `nombre` input. */
    method HandleChange(valor: string)
      modifies this
      ensures nuevo == valor
      ensures mostrarFormulario == old(mostrarFormulario) && editando == old(editando)
      ensures editNombre == old(editNombre) && busquedaTexto == old(busquedaTexto)
    {
      nuevo := valor;
    }

    /** `handleSubmit` (lines 18-32). `agregado` says whether
        `agregarCentroCosto` resolved or threw. */
    method HandleSubmit(agregado: bool) returns (enviado: Option<DatosCentro>, aviso: Aviso)
      modifies this
      ensures old(nuevo) == "" ==>
                enviado == None && aviso == Error(MensajeObligatorio) &&
                nuevo == old(nuevo) && mostrarFormulario == old(mostrarFormulario)
      ensures old(nuevo) != "" ==> enviado == Some(DatosCentro(old(nuevo)))
      ensures enviado.Some? && agregado ==> aviso == Exito(MensajeAgregado) && nuevo == "" && !mostrarFormulario
      ensures enviado.Some? && !agregado ==>
                aviso == Error(MensajeErrorAlta) && nuevo == old(nuevo) && mostrarFormulario == old(mostrarFormulario)
      ensures editando == old(editando) && editNombre == old(editNombre) && busquedaTexto == old(busquedaTexto)
    {
      if nuevo == "" {
        return None, Error(MensajeObligatorio);
      }
      enviado := Some(DatosCentro(nuevo));
      if agregado {
        aviso := Exito(MensajeAgregado);
        nuevo := "";
        mostrarFormulario := false;
      } else {
        aviso := Error(MensajeErrorAlta);
      }
    }

    /** `abrirEditar` (lines 34-37). */
    method AbrirEditar(c: CentroCosto)
      modifies this
      ensures editando == Some(c.id) && editNombre == c.nombre
      ensures nuevo == old(nuevo) && mostrarFormulario == old(mostrarFormulario) && busquedaTexto == old(busquedaTexto)
    {
      editando := Some(c.id);
      editNombre := c.nombre;
    }

    /** `handleEditSubmit` (lines 39-52): sends `{ nombre: editNombre }`. */
    method HandleEditSubmit(resultado: Resultado) returns (enviado: Option<(Option<int>, DatosCentro)>, aviso: Aviso)
      modifies this
      ensures old(editNombre) == "" ==>
                enviado == None && aviso == Error(MensajeObligatorio) && editando == old(editando)
      ensures old(editNombre) != "" ==> enviado == Some((old(editando), DatosCentro(old(editNombre))))
      ensures enviado.Some? && resultado.success ==> aviso == Exito(MensajeEditado) && editando == None
      ensures enviado.Some? && !resultado.success ==> aviso == Error(resultado.error) && editando == old(editando)
      ensures editNombre == old(editNombre) && nuevo == old(nuevo)
      ensures mostrarFormulario == old(mostrarFormulario) && busquedaTexto == old(busquedaTexto)
    {
      if editNombre == "" {
        return None, Error(MensajeObligatorio);
      }
      enviado := Some((editando, DatosCentro(editNombre)));
      if resultado.success {
        aviso := Exito(MensajeEditado);
        editando := None;
      } else {
        aviso := Error(resultado.error);
      }
    }
  }
}
