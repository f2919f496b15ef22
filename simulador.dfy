/** The work-situation simulator: the category buttons taken from the
    preloaded situations, the situations of the chosen category that match
    the search text, the answers shown for the chosen situation, and what the
    PDF export writes. */
module Simulador {
  import opened Comun
  import opened Texto
  import opened Registros

  /** `[...new Set(pre.map((s) => s.categoria))]` (line 10): every category
      once. */
  function Categorias(pre: seq<Situacion>): (r: seq<string>)
    ensures Distintos(r)
    ensures forall i :: 0 <= i < |pre| ==> pre[i].categoria in r
    ensures forall j :: 0 <= j < |r| ==> exists i :: 0 <= i < |pre| && pre[i].categoria == r[j]
  {
    var cs := Map(pre, (s: Situacion) => s.categoria);
    var r := Dedup(cs);
    assert forall i :: 0 <= i < |pre| ==> cs[i] == pre[i].categoria;
    assert forall j :: 0 <= j < |r| ==> exists i :: 0 <= i < |pre| && pre[i].categoria == r[j] by {
      forall j | 0 <= j < |r| ensures exists i :: 0 <= i < |pre| && pre[i].categoria == r[j] {
        var i :| 0 <= i < |cs| && cs[i] == r[j];
        assert pre[i].categoria == r[j];
      }
    }
    r
  }

  /** The buttons come in the order in which their category first occurs in
      the preloaded list. */
  lemma CategoriasEnOrden(pre: seq<Situacion>)
    ensures forall i, j :: 0 <= i < j < |Categorias(pre)| ==>
              Primera(Map(pre, (s: Situacion) => s.categoria), Categorias(pre)[i]) <
              Primera(Map(pre, (s: Situacion) => s.categoria), Categorias(pre)[j])
  {
    DedupOrdenPrimera(Map(pre, (s: Situacion) => s.categoria));
  }

  /** The condition of lines 11-13. */
  predicate Coincide(categoria: string, busqueda: string, s: Situacion) {
    s.categoria == categoria && CoincideSinMayus(s.situacion, busqueda)
  }

  /** `situacionesFiltradas` (lines 11-13). */
  function SituacionesFiltradas(pre: seq<Situacion>, categoria: string, busqueda: string): (r: seq<Situacion>)
    ensures forall i :: 0 <= i < |r| ==> r[i] in pre && r[i].categoria == categoria && CoincideSinMayus(r[i].situacion, busqueda)
    ensures forall i :: 0 <= i < |pre| && Coincide(categoria, busqueda, pre[i]) ==> pre[i] in r
  {
    Filter(pre, (s: Situacion) => Coincide(categoria, busqueda, s))
  }

  /** The filter keeps the preloaded order. */
  lemma SituacionesEnOrden(a: seq<Situacion>, b: seq<Situacion>, categoria: string, busqueda: string)
    ensures SituacionesFiltradas(a + b, categoria, busqueda) ==
              SituacionesFiltradas(a, categoria, busqueda) + SituacionesFiltradas(b, categoria, busqueda)
  {
    FilterConcat(a, b, (s: Situacion) => Coincide(categoria, busqueda, s));
  }

  /** With no search text the list is the whole category, in order. */
  lemma {:induction false} SinBusquedaEsLaCategoria(pre: seq<Situacion>, categoria: string)
    ensures SituacionesFiltradas(pre, categoria, "") == Filter(pre, (s: Situacion) => s.categoria == categoria)
  {
    if pre != [] {
      CoincideVacio(pre[0].situacion);
      SinBusquedaEsLaCategoria(pre[1..], categoria);
    }
  }

  /** The answers listed for the chosen situation (lines 84-86): each truthy
      `respuestaN`, in order. */
  function RespuestasVisibles(s: Situacion): (r: seq<string>)
    ensures |r| <= 3 && forall i :: 0 <= i < |r| ==> r[i] != ""
    ensures r == Filter([OrVacio(s.respuesta1), OrVacio(s.respuesta2), OrVacio(s.respuesta3)], (x: string) => x != "")
  {
    FilterTres(OrVacio(s.respuesta1), OrVacio(s.respuesta2), OrVacio(s.respuesta3), (x: string) => x != "");
    (if Presente(s.respuesta1) then [s.respuesta1.value] else []) +
    (if Presente(s.respuesta2) then [s.respuesta2.value] else []) +
    (if Presente(s.respuesta3) then [s.respuesta3.value] else [])
  }

  /** What the PDF export writes (lines 18-30): the file name, the category,
      the situation and the three answers, each `|| ''`. */
  datatype Simulacion = Simulacion(archivo: string, categoria: string, situacion: string, respuestas: seq<string>)

  /** `handleExportarPDF`: nothing without a chosen situation (line 16). */
  function Exportar(sel: Option<Situacion>): (r: Option<Simulacion>)
    ensures r.None? <==> sel.None?
    ensures r.Some? ==> r.value.archivo == "simulacion_" + sel.value.situacion + ".pdf"
    ensures r.Some? ==> r.value.categoria == sel.value.categoria && r.value.situacion == sel.value.situacion
    ensures r.Some? ==> r.value.respuestas ==
                        [OrVacio(sel.value.respuesta1), OrVacio(sel.value.respuesta2), OrVacio(sel.value.respuesta3)]
    ensures r.Some? ==> Filter(r.value.respuestas, (x: string) => x != "") == RespuestasVisibles(sel.value)
  {
    match sel
    case None => None
    case Some(s) =>
      Some(Simulacion("simulacion_" + s.situacion + ".pdf", s.categoria, s.situacion,
                      [OrVacio(s.respuesta1), OrVacio(s.respuesta2), OrVacio(s.respuesta3)]))
  }

  /** The page's state (lines 6-8). */
  class PaginaSimulador {
    var categoriaSeleccionada: string
    var situacionSeleccionada: Option<Situacion>
    var busqueda: string

    constructor ()
      ensures categoriaSeleccionada == "" && situacionSeleccionada == None && busqueda == ""
    {
      categoriaSeleccionada := "";
      situacionSeleccionada := None;
      busqueda := "";
    }

    /** A category button (lines 41-45): select it, forget the chosen
        situation and clear the search. */
    method ElegirCategoria(cat: string)
      modifies this
      ensures categoriaSeleccionada == cat && situacionSeleccionada == None && busqueda == ""
    {
      categoriaSeleccionada := cat;
      situacionSeleccionada := None;
      busqueda := "";
    }

    /** A situation button (line 68). */
    method ElegirSituacion(s: Situacion)
      modifies this
      ensures situacionSeleccionada == Some(s)
      ensures categoriaSeleccionada == old(categoriaSeleccionada) && busqueda == old(busqueda)
    {
      situacionSeleccionada := Some(s);
    }

    /** The search box (line 61). */
    method Buscar(texto: string)
      modifies this
      ensures busqueda == texto
      ensures categoriaSeleccionada == old(categoriaSeleccionada) && situacionSeleccionada == old(situacionSeleccionada)
    {
      busqueda := texto;
    }

    /** The export button (lines 15-31); it changes no state. */
    method HandleExportarPdf() returns (r: Option<Simulacion>)
      ensures r == Exportar(situacionSeleccionada)
      ensures situacionSeleccionada.None? ==> r.None?
    {
      if situacionSeleccionada.None? {
        return None;
      }
      var s := situacionSeleccionada.value;
      r := Some(Simulacion("simulacion_" + s.situacion + ".pdf", s.categoria, s.situacion,
                           [OrVacio(s.respuesta1), OrVacio(s.respuesta2), OrVacio(s.respuesta3)]));
    }
  }
}
