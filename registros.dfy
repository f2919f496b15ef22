/** The records the entity stores hand to the pages, as the pages read them.
    A field the pages treat as possibly missing (they guard it with `&&` or
    default it with `|| ''`) is an `Option`; `None` stands for `null` or an
    absent key. */
module Registros {
  import opened Comun

  /** A job position; `jefeId` is the `jefe_id` of its boss position. */
  datatype Puesto = Puesto(id: int, nombre: string, descripcion: Option<string>, jefeId: Option<int>)

  datatype CentroCosto = CentroCosto(id: int, nombre: string)

  datatype Empleado = Empleado(
    id: int,
    nombre: string,
    apellido: string,
    estado: string,
    genero: Option<string>,
    centroCosto: Option<CentroCosto>)

  datatype Licencia = Licencia(
    id: int,
    empleadoId: int,
    tipo: string,
    fechaInicio: string,
    fechaFin: string,
    observaciones: Option<string>)

  /** A recruiting search. */
  datatype Busqueda = Busqueda(
    id: int,
    nombre: string,
    puesto: string,
    descripcion: Option<string>,
    fechaApertura: string,
    fechaInicio: string,
    estado: Option<string>,
    responsable: Option<string>,
    centroCosto: Option<string>)

  /** An applicant; `cv` is the address of the stored CV. */
  datatype Postulante = Postulante(
    id: int,
    nombre: string,
    email: Option<string>,
    telefono: Option<string>,
    direccion: Option<string>,
    estado: Option<string>,
    notas: Option<string>,
    busqueda: Option<string>,
    cv: Option<string>)

  /** An entry of the work-situation simulator's preloaded list. */
  datatype Situacion = Situacion(
    categoria: string,
    situacion: string,
    respuesta1: Option<string>,
    respuesta2: Option<string>,
    respuesta3: Option<string>)
}
