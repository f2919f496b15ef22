# RRHH front end: a Dafny model of its page logic

This project models the logic of the pages of a human-resources web front
end, written in React. The pages are:

- **Organigrama**: the org chart. It turns the flat list of positions
  (`puestos`, each with an optional boss `jefe_id`) into a forest and draws
  it level by level.
- **Puestos, Licencias, Búsquedas, Postulantes, Centros de costo**: the
  create/edit forms with their required-field and date checks, what each
  submit sends, and the search filters of the tables.
- **Home**: the dashboard figures, the per-gender and per-cost-centre
  counts, and the bar chart's `suggestedMax`.
- **Simulador**: the category buttons, the situation filter and what the
  PDF export writes.
- **AuthContext**: the logged-in user, how a login answer changes it, and
  its copy in `localStorage`.

Pure computations (filters, look-ups, the hierarchy, the counts) are
functions and lemmas. Each page's `useState` hooks become the fields of a
class, and the event handlers become methods that update those fields and
state the whole new state.

The modules are:

- `Comun`: shared datatypes (`Option`, JavaScript values, toasts, the
  `{ success, error }` result of the store calls) and sequence helpers.
- `Texto`: `toLowerCase().includes(...)` on ASCII, ISO date comparison,
  and `parseInt`/`String` on integers.
- `Registros`: the records the stores hold.
- One module per page, plus `Autenticacion`.

Calls to the stores (`agregarPuesto`, `editarLicencia`, ...) are not
modelled. Their outcome is a parameter of the handler that awaits them: a
`bool` for a call that either resolves or throws, a `Resultado` for one
that returns `{ success, error }`. What the handler sends is one of its
results. A toast is the `Aviso` the handler returns.

## Model

| member | source | states |
|---|---|---|
| Organigrama.ConstruirMapa | src/pages/Organigrama.jsx:8-11 | The first pass gives one node per distinct id, holding the last record with that id and no children. |
| Organigrama.Enlazar | src/pages/Organigrama.jsx:14-20 | One step of the second pass. A record with a falsy `jefe_id` is appended to `raiz`. Otherwise it is appended to its boss's `hijos`, or dropped when the boss id is not a node. No other node changes. |
| Organigrama.ConstruirJerarquia | src/pages/Organigrama.jsx:7-23 | The map and root list it builds equal the specification `Jerarquia`/`Raices`: each id's last record, with children listed in input order. |
| Organigrama.UltimoUnico | src/pages/Organigrama.jsx:10 | With unique ids, the node of an id is that id's record. |
| Organigrama.ColocadosConcat | src/pages/Organigrama.jsx:14-20 | The placement of a concatenation is the placement of each part, in order. So roots and children keep input order. |
| Organigrama.RaicesSon | src/pages/Organigrama.jsx:15-19 | `x` is a root iff some record with id `x` has a falsy `jefe_id`. |
| Organigrama.HijosSon | src/pages/Organigrama.jsx:15-16 | `x` is a child of `k` iff `k` is a node id and some record with id `x` has truthy `jefe_id == k`. An unknown boss drops the record. |
| Organigrama.UbicacionUnica | src/pages/Organigrama.jsx:7-23 | With unique ids, a root's record has no boss, and a child of `k` is the record whose boss is `k`. |
| Organigrama.ApareceUnaVez | src/pages/Organigrama.jsx:14-20 | With unique ids, each record's id occurs exactly once at its destination and nowhere else. |
| Organigrama.Apariciones | src/pages/Organigrama.jsx:14-20 | The roots plus all children lists hold exactly as many ids as there are records not dropped for a dangling boss. |
| Organigrama.CaminoSinRepetidos | src/pages/Organigrama.jsx:39-42 | With unique ids, a path from a root down `hijos` never repeats a node and uses only node ids. |
| Organigrama.CaminoEnIds | src/pages/Organigrama.jsx:39-42 | Every node on a path down `hijos` is a node id. |
| Organigrama.UnicosSinCiclos | src/pages/Organigrama.jsx:7-23 | With unique ids, no path down `hijos` repeats a node. |
| Organigrama.CicloSinFin | src/pages/Organigrama.jsx:39-42 | A path that repeats a node can be pumped to any length. So without `SinCiclos` the recursion of `renderNodo` never ends. |
| Organigrama.CaminoAcotado | src/pages/Organigrama.jsx:25-45 | When no path repeats a node, a path is no longer than the number of ids. So the recursion of `renderNodo` ends. |
| Organigrama.CicloCerrado | src/pages/Organigrama.jsx:15-16 | The positions of a boss cycle form a set closed under "boss of". |
| Organigrama.CerradoInalcanzable | src/pages/Organigrama.jsx:13-20 | With unique ids, no node of a boss-closed set lies on a path from a root. |
| Organigrama.EstiloDe | src/pages/Organigrama.jsx:28-34 | Blue iff level 0, green iff level 1, grey iff level 2 or more. |
| Organigrama.Etiqueta | src/pages/Organigrama.jsx:36-37 | The label is the name, followed by ` - descripcion` only when the description is truthy. |
| Organigrama.RenderNodo | src/pages/Organigrama.jsx:25-45 | The node's own line comes first, at its level; every other line is deeper. The lines one level down are exactly the node's `hijos`, in order. |
| Organigrama.RenderHijos | src/pages/Organigrama.jsx:41 | Nothing for no children. Otherwise the first line is the first child, every line is at the children's level or deeper, and the lines at that level are exactly the children, in order. |
| Organigrama.NodoDibujado | src/pages/Organigrama.jsx:25-45 | Every line of a node's drawing has the style of its level, shows a reachable node, and carries the label of that id's node. |
| Organigrama.HijosDibujados | src/pages/Organigrama.jsx:39-43 | The same for the drawings of siblings, one after the other. |
| Organigrama.NodoAnidado | src/pages/Organigrama.jsx:39-43 | A node's drawing is nested: each line is at most one level below the one before it, and the lines one level under each line are exactly that node's `hijos`, in order. |
| Organigrama.HijosAnidados | src/pages/Organigrama.jsx:41 | Siblings drawn one after the other keep that nesting. |
| Organigrama.CaminoDibujado | src/pages/Organigrama.jsx:39-43 | In a nested drawing whose top level is `raiz`, the end of every path down `hijos` is drawn. |
| Organigrama.Pagina | src/pages/Organigrama.jsx:47-58 | The no-data message iff the list is empty. Otherwise the first line is at level 0, the level-0 lines are exactly `raiz`, in order, and the drawing is nested. Every line has the style of its level and the label of its id's node. A position is drawn iff it is reachable from `raiz`. |
| Organigrama.CicloNoSeDibuja | src/pages/Organigrama.jsx:50-56 | With unique ids, positions on a boss cycle never appear in the chart. |
| Organigrama.DuplicadoSeReferencia | src/pages/Organigrama.jsx:10-16 | With id 1 twice, the second record naming 1 as boss, node 1 becomes its own child. The path down `hijos` then grows without end, and `SinCiclos` fails. |
| Organigrama.DuplicadoSinCiclo | src/pages/Organigrama.jsx:10-18 | Two roots with the same id and no boss form no cycle. The page draws that node twice, both times with the last record's label. |
| Texto.IncluyeSiAparece | src/pages/Puestos.jsx:82 | `includes` holds iff the text occurs at some position. |
| Texto.CoincideVacio | src/pages/Puestos.jsx:82 | Every text matches an empty search. |
| Texto.PosteriorAsimetrico | src/pages/Licencias.jsx:34 | The date order is irreflexive and asymmetric. |
| Texto.ParseIntMostrar | src/pages/Licencias.jsx:75 | `parseInt(String(n)) == n` for every integer. |
| Puestos.Payload | src/pages/Puestos.jsx:28-31 | `jefe_id` is `null` iff the field holds `''`, otherwise `parseInt` of it. Name and description are unchanged. |
| Puestos.Envio | src/pages/Puestos.jsx:24-31 | Nothing is sent iff the name is empty; otherwise the payload is sent. |
| Puestos.ElegirJefe | src/pages/Puestos.jsx:30 | Choosing a boss from the list sends that boss's id. |
| Puestos.FormDesde | src/pages/Puestos.jsx:42-49 | The edit form copies the name. The description becomes `''` when falsy. A truthy boss id is copied as a number, a falsy one becomes `''`. |
| Puestos.EditarSinCambios | src/pages/Puestos.jsx:42-64 | Saving an opened position unchanged sends back its own boss, or `null`. |
| Puestos.PuestosFiltrados | src/pages/Puestos.jsx:81-84 | A position is listed iff its name, or its truthy description, contains the text, ignoring case. |
| Puestos.PuestosFiltradosOrden | src/pages/Puestos.jsx:81-84 | The filter keeps list order. |
| Puestos.PuestosSinTexto | src/pages/Puestos.jsx:81-84 | An empty search lists everything. |
| Puestos.NombreJefe | src/pages/Puestos.jsx:158-163 | The boss column shows the name of the first position whose id is strictly equal to `jefe_id`, or `-`. A `jefe_id` of 0 therefore shows the position with id 0, while the org chart treats 0 as falsy and draws that position as a root. |
| Puestos.JefeComoEnOrganigrama | src/pages/Puestos.jsx:158-163 | With unique ids, the boss shown in the table is the one under whom the org chart draws the position. |
| Puestos.PaginaPuestos.constructor | src/pages/Puestos.jsx:8-16 | The empty forms, the hidden form, nothing being edited, an empty search. |
| Puestos.PaginaPuestos.HandleSubmit | src/pages/Puestos.jsx:22-40 | An empty name is refused with its message. Otherwise the payload is sent. On success the form is reset and hidden; on failure it is kept. |
| Puestos.PaginaPuestos.AbrirEditar | src/pages/Puestos.jsx:42-49 | Sets the id being edited and fills the edit form. |
| Puestos.PaginaPuestos.HandleEditSubmit | src/pages/Puestos.jsx:55-72 | Same check, then sends `(editando, payload)`. Success closes the edit; failure shows the store's error. |
| Home.Histograma | src/pages/Home.jsx:35-39 | The counting dictionary has each key once, and exactly the keys that occur. |
| Home.HistogramaCuenta | src/pages/Home.jsx:37 | Each key counts its occurrences. |
| Home.HistogramaOrden | src/pages/Home.jsx:153 | `Object.keys` lists the keys in order of first occurrence. |
| Home.HistogramaSuma | src/pages/Home.jsx:155 | The counts add up to the number of employees. |
| Home.HistogramaJSComun | src/pages/Home.jsx:37 | When no key is a name inherited from `Object.prototype`, the source's object is `Histograma`: the same keys in the same order, each holding its count. |
| Home.ProtoNoSeCuenta | src/pages/Home.jsx:37 | A `__proto__` key is never counted: the setter ignores the text assigned to it, so it adds no key and no value. |
| Home.HeredadaEsTexto | src/pages/Home.jsx:37 | Any other inherited name that occurs holds a text, made by `+ 1` on the inherited function, never a count. |
| Home.NombresHeredados | src/pages/Home.jsx:43 | One employee in centre `__proto__` and one in `constructor`: the source lists only `constructor`, with the text `function Object() { [native code] }1`, where the histogram counts 1 for each. |
| Home.ContarPor | src/pages/Home.jsx:35-45 | The `reduce` loop builds the source's object `HistogramaJS`. When no key is an inherited name, that is the histogram `Histograma`. |
| Home.ClaveGenero | src/pages/Home.jsx:36 | The gender, or `Sin asignar` when it is falsy. |
| Home.ClaveCentro | src/pages/Home.jsx:42 | The cost centre's name, or `Sin asignar` when there is no centre or its name is falsy. |
| Home.GeneroCounts | src/pages/Home.jsx:35-39 | `generoCounts` is the source's object over the gender keys, and the histogram of those keys when none is an inherited name. |
| Home.CentroCostoCounts | src/pages/Home.jsx:41-45 | `centroCostoCounts` is the source's object over the cost-centre keys, and the histogram of those keys when none is an inherited name. |
| Home.ConteoCompleto | src/pages/Home.jsx:35-45 | Every employee is counted under its key, and the counts add up to the number of employees. |
| Home.CuentaEstadoOcurrencias | src/pages/Home.jsx:29-30 | The active and inactive counts are the occurrences of that status. |
| Home.Resumen | src/pages/Home.jsx:29-33 | The five dashboard figures: the active and inactive counts, the number of leaves, the number of searches whose `estado` is `Activo`, and the number of applicants. Active plus inactive is at most the number of employees. |
| Home.SuggestedMax | src/pages/Home.jsx:63 | The largest of the two status counts and the cost-centre counts, plus 2. |
| Home.MaximoValores | src/pages/Home.jsx:63 | The maximum of `Object.values` bounds every count and is attained when there is a key. |
| Home.SuggestedMaxCota | src/pages/Home.jsx:63 | `suggestedMax` is at least every cost-centre count plus 2, and the largest count belongs to some centre. |
| Home.SuggestedMaxSinEmpleados | src/pages/Home.jsx:63 | With no employees it is 2. |
| Home.GraficoEstados | src/pages/Home.jsx:129-141 | The no-data message iff there are no employees; otherwise the labels and the two status counts. |
| Home.GraficoDe | src/pages/Home.jsx:148-189 | The no-data message iff there are no employees. Otherwise the labels are the groups, each once, first-seen first. Each bar is the number of employees in its label's group. |
| Home.GraficosDeGrupo | src/pages/Home.jsx:148-189 | The pie and bar labels are the keys in order of first occurrence, and each chart's values add up to the number of employees. |
| Simulador.Categorias | src/pages/Simulador.jsx:10 | Each category once, and only those that occur. |
| Simulador.CategoriasEnOrden | src/pages/Simulador.jsx:10 | The buttons follow the order of first occurrence. |
| Simulador.SituacionesFiltradas | src/pages/Simulador.jsx:11-13 | A situation is listed iff it is in the chosen category and contains the search text, ignoring case. |
| Simulador.SituacionesEnOrden | src/pages/Simulador.jsx:11-13 | The filter keeps the preloaded order. |
| Simulador.SinBusquedaEsLaCategoria | src/pages/Simulador.jsx:11-13 | With an empty search the list is the whole category. |
| Simulador.RespuestasVisibles | src/pages/Simulador.jsx:84-86 | The truthy answers, in order. |
| Simulador.Exportar | src/pages/Simulador.jsx:15-31 | Nothing without a chosen situation. Otherwise the file is `simulacion_<situacion>.pdf`, with the category and the situation. The three answers are written in their own slots, each `''` when falsy, and the non-empty ones are the answers the page lists. |
| Simulador.PaginaSimulador.constructor | src/pages/Simulador.jsx:6-8 | Nothing chosen, empty search. |
| Simulador.PaginaSimulador.ElegirCategoria | src/pages/Simulador.jsx:41-45 | Picks the category, forgets the situation and clears the search. |
| Simulador.PaginaSimulador.ElegirSituacion | src/pages/Simulador.jsx:68 | Picks the situation; nothing else changes. |
| Simulador.PaginaSimulador.Buscar | src/pages/Simulador.jsx:61 | Sets the search text; nothing else changes. |
| Simulador.PaginaSimulador.HandleExportarPdf | src/pages/Simulador.jsx:15-31 | Writes `Exportar` of the chosen situation, and nothing when there is none. |
| Licencias.Validar | src/pages/Licencias.jsx:30-37 | Passes iff the employee is truthy, the type and both dates are set, and the start is not after the end. Otherwise gives the first failing message. |
| Licencias.FechasIguales | src/pages/Licencias.jsx:34-37 | A one-day leave passes. When a complete form fails on its dates, swapping them makes it pass. |
| Licencias.DatosEditados | src/pages/Licencias.jsx:73-76 | The edit payload is the form with `empleado_id` through `parseInt`. |
| Licencias.FormDesde | src/pages/Licencias.jsx:48-57 | The edit form copies the record; the notes become `''` when falsy. |
| Licencias.EditarSinCambios | src/pages/Licencias.jsx:48-76 | Saving an opened leave unchanged sends back its own employee id. |
| Licencias.EmpleadoDe | src/pages/Licencias.jsx:158 | The first employee with the leave's id, or none when no employee has it. |
| Licencias.NombreEmpleado | src/pages/Licencias.jsx:161 | `apellido, nombre` of that employee, or `No encontrado`. |
| Licencias.LicenciasFiltradas | src/pages/Licencias.jsx:93-100 | A leave is listed iff the type filter is empty or matches, and the employee filter is empty or matches `apellido nombre` of an existing employee. |
| Licencias.LicenciasEnOrden | src/pages/Licencias.jsx:93-100 | The filter keeps list order. |
| Licencias.SinFiltros | src/pages/Licencias.jsx:93-100 | With both filters empty, every leave is listed, including those of unknown employees. |
| Licencias.PaginaLicencias.constructor | src/pages/Licencias.jsx:10-22 | Empty forms and filters, the form hidden, nothing being edited. |
| Licencias.PaginaLicencias.HandleSubmit | src/pages/Licencias.jsx:28-46 | Refused with the first failing check's message. Otherwise the form is sent as it is; on success it is reset and hidden. |
| Licencias.PaginaLicencias.AbrirEditar | src/pages/Licencias.jsx:48-57 | Sets the id being edited and fills the edit form. |
| Licencias.PaginaLicencias.HandleEditSubmit | src/pages/Licencias.jsx:63-84 | Same checks, then sends `(editando, DatosEditados)`. Success closes the edit; failure shows the store's error. |
| Busquedas.Validar | src/pages/Busquedas.jsx:40-47 | Passes iff name, position and both dates are set and the opening date is not after the start date. Otherwise gives the first failing message. |
| Busquedas.FechasIguales | src/pages/Busquedas.jsx:44-47 | Equal dates pass. When a complete form fails on its dates, swapping them makes it pass. |
| Busquedas.FormDesde | src/pages/Busquedas.jsx:61-69 | The edit form copies the record; the optional fields become `''` when falsy. |
| Busquedas.BusquedasFiltradas | src/pages/Busquedas.jsx:101-106 | A search is listed iff its name, its position, or its truthy manager or cost centre contains the text, ignoring case. |
| Busquedas.BusquedasEnOrden | src/pages/Busquedas.jsx:101-106 | The filter keeps list order. |
| Busquedas.BusquedasSinTexto | src/pages/Busquedas.jsx:101-106 | An empty search lists everything. |
| Busquedas.PaginaBusquedas.constructor | src/pages/Busquedas.jsx:10-18 | Empty forms, the form hidden, nothing being edited. |
| Busquedas.PaginaBusquedas.HandleSubmit | src/pages/Busquedas.jsx:38-59 | Refused with the first failing check's message. Otherwise the form is sent as it is; on success it is reset and hidden. |
| Busquedas.PaginaBusquedas.AbrirEditar | src/pages/Busquedas.jsx:61-69 | Sets the id being edited and fills the edit form. |
| Busquedas.PaginaBusquedas.HandleEditSubmit | src/pages/Busquedas.jsx:75-92 | Same checks, then sends `(editando, editData)`. Success closes the edit; failure shows the store's error. |
| Postulantes.Leer | src/pages/Postulantes.jsx:31 | A property read gives the value under the key, or `undefined`. |
| Postulantes.Asignar | src/pages/Postulantes.jsx:20-27 | `{ ...f, [k]: v }` keeps the keys distinct and reads back `v` at `k`. Every other key keeps its value. An existing key keeps its place; a new key goes last. |
| Postulantes.FormVacio | src/pages/Postulantes.jsx:13-16 | The eight keys in order, each `''`. |
| Postulantes.FormDesde | src/pages/Postulantes.jsx:49-61 | The edit form copies name, email and search as they are. Phone, address, status, notes and CV become `''` when falsy. |
| Postulantes.ValorDelEvento | src/pages/Postulantes.jsx:20-27 | For `cv`, the first chosen file, or `undefined` when there is none; otherwise the typed text. |
| Postulantes.Convertir | src/pages/Postulantes.jsx:38 | A file is sent as a file; every other value as text. |
| Postulantes.EntradasCompletas | src/pages/Postulantes.jsx:36-39 | The multipart body has one entry per key of the form, in key order, holding that key's value. |
| Postulantes.ArmarFormData | src/pages/Postulantes.jsx:36-39 | The loop over `Object.keys` builds exactly those entries. |
| Postulantes.PostulantesFiltrados | src/pages/Postulantes.jsx:98-102 | An applicant is listed iff the name, or the truthy email or search, contains the text, ignoring case. |
| Postulantes.PostulantesEnOrden | src/pages/Postulantes.jsx:98-102 | The filter keeps list order. |
| Postulantes.PostulantesSinTexto | src/pages/Postulantes.jsx:98-102 | An empty search lists everything. |
| Postulantes.PaginaPostulantes.constructor | src/pages/Postulantes.jsx:9-18 | Empty forms, the form hidden, nothing being edited. |
| Postulantes.PaginaPostulantes.HandleChange | src/pages/Postulantes.jsx:20-27 | The new form is `Asignar` of the old one with the event's value; nothing else changes. |
| Postulantes.PaginaPostulantes.HandleEditChange | src/pages/Postulantes.jsx:63-70 | The same on the edit form. |
| Postulantes.PaginaPostulantes.HandleSubmit | src/pages/Postulantes.jsx:29-47 | Refused unless name, email and search are truthy. Otherwise the form's entries are sent. On success the form is reset and hidden. |
| Postulantes.PaginaPostulantes.AbrirEditar | src/pages/Postulantes.jsx:49-61 | Sets the id being edited and fills the edit form. |
| Postulantes.PaginaPostulantes.HandleEditSubmit | src/pages/Postulantes.jsx:72-89 | Same check, then sends `(editando, entries)`. Success closes the edit; failure shows the store's error. |
| CentrosCosto.CentrosFiltrados | src/pages/CentrosCosto.jsx:61-63 | A centre is listed iff its name contains the text, ignoring case. |
| CentrosCosto.CentrosEnOrden | src/pages/CentrosCosto.jsx:61-63 | The filter keeps list order. |
| CentrosCosto.CentrosSinTexto | src/pages/CentrosCosto.jsx:61-63 | An empty search lists everything. |
| CentrosCosto.PaginaCentrosCosto.constructor | src/pages/CentrosCosto.jsx:8-12 | Empty name and search, the form hidden, nothing being edited. |
| CentrosCosto.PaginaCentrosCosto.HandleChange | src/pages/CentrosCosto.jsx:14-16 | Sets the new name; nothing else changes. |
| CentrosCosto.PaginaCentrosCosto.HandleSubmit | src/pages/CentrosCosto.jsx:18-32 | An empty name is refused with its message. Otherwise `{ nombre }` is sent; on success the name is cleared and the form hidden. |
| CentrosCosto.PaginaCentrosCosto.AbrirEditar | src/pages/CentrosCosto.jsx:34-37 | Sets the id being edited and its name. |
| CentrosCosto.PaginaCentrosCosto.HandleEditSubmit | src/pages/CentrosCosto.jsx:39-52 | Same check, then sends `(editando, { nombre: editNombre })`. Success closes the edit; failure shows the store's error. |
| Autenticacion.Restaurar | src/data/AuthContext.js:7-10 | A reload restores the stored user iff it is present and non-empty; otherwise `null`. |
| Autenticacion.DecidirLogin | src/data/AuthContext.js:12-39 | Success iff the message is `Login exitoso` and the user is truthy. A failure always carries the message for its case: empty user, other message, 401, or any other error. |
| Autenticacion.Sesion.constructor | src/data/AuthContext.js:7-10 | The session starts as what the storage restores. |
| Autenticacion.Sesion.Login | src/data/AuthContext.js:12-39 | Returns `DecidirLogin`. On success it keeps the user in the state and in storage; otherwise nothing changes. The session stays what a reload would restore. |
| Autenticacion.Sesion.Logout | src/data/AuthContext.js:41-44 | Clears the user and removes the stored key. The session stays what a reload would restore. |

## Findings

| source | as written | input that shows it | evidently intended | confidence | as-written member | corrected member |
|---|---|---|---|---|---|---|
| src/pages/Home.jsx:43 | `acc[nombre] = (acc[nombre] \|\| 0) + 1` on a `{}` that inherits from `Object.prototype` | one employee in a cost centre named `__proto__` and one in a centre named `constructor`; a centre name is any non-empty text | one count per centre name, adding up to the number of employees | not executed | Home.NombresHeredados | Home.Histograma |

The same statement counts genders at line 37. The dashboard's histogram members (`HistogramaCuenta`, `HistogramaOrden`, `HistogramaSuma`, `ConteoCompleto`, `GraficoDe`, `GraficosDeGrupo`, `SuggestedMax`) are stated on the corrected `Histograma`. `HistogramaJSComun` shows that the source agrees with it whenever no key is an inherited name.

## Left out

- Organigrama.RenderNodo, Organigrama.RenderHijos, Organigrama.Pagina: require `SinCiclos`, that no path down `hijos` repeats a node. That is exactly when the page's recursion ends (`CicloSinFin`, `DuplicadoSeReferencia`); where it fails there is no drawing to specify. Unique ids imply it (`UnicosSinCiclos`), and a repeated id without a cycle is drawn (`DuplicadoSinCiclo`).
- The org chart drops a position whose `jefe_id` names no existing position (`mapa[p.jefe_id]?.hijos.push`). It does not promote such a position to a root; the model does what the code does.
- Nodes are modelled by their ids. The shared JavaScript node objects (a child pushed before its own children are linked) are not modelled as aliases, which gives the same drawing.
- `toLowerCase` is modelled for ASCII letters only. Unicode case mapping is not modelled.
- Dates are the `yyyy-mm-dd` texts of the date inputs, compared in text order. `new Date` parsing is not modelled.
- `parseInt` is modelled as an optional sign followed by leading decimal digits. Leading whitespace, radix prefixes and arbitrary-precision limits are not modelled.
- Histograma: the intended counts. The source's object differs on a key inherited from `Object.prototype` (`HistogramaJS`, see Findings).
- HistogramaCuenta: states each key's count. In the source an inherited name other than `__proto__` holds a text instead (`HeredadaEsTexto`).
- HistogramaOrden: states first-occurrence key order. In the source `__proto__` is never a key (`ProtoNoSeCuenta`).
- HistogramaSuma: states that the counts add up to the keys counted. In the source that holds only when no key is an inherited name (`HistogramaJSComun`).
- ConteoCompleto: states that every employee is counted under its key. In the source an employee whose key is `__proto__` is not counted.
- GraficoDe: states the bars as counts of `Histograma`. The source's bars are `Object.values` of its own object, which differ on inherited names; what the chart library draws for a text value is not modelled.
- GraficosDeGrupo: states that the slices add up to the number of employees. In the source that holds only when no key is an inherited name.
- SuggestedMax: uses the counts of `Histograma`. In the source a text value among the cost-centre counts makes `Math.max` give `NaN`.
- ContarPor: keeps the object's keys in plain insertion order. JavaScript lists integer-like keys first in `Object.keys`, so a gender or centre named like `12` would come first there.
- GeneroCounts: the key order of `ContarPor`, so integer-like gender keys are not moved first.
- CentroCostoCounts: the key order of `ContarPor`, so integer-like centre keys are not moved first.
- JavaScript lists integer-like object keys before the others in `Object.keys`. The model keeps plain insertion order (Home's counts, Postulantes' form).
- The `handleChange`/`handleEditChange` of Puestos, Licencias and Búsquedas are not separate methods. Each sets one named text field, and the submit methods take whatever the form holds.
- Delete buttons (`window.confirm` plus a store call) and the show/hide toggles of the forms are not modelled.
- The store contexts, the HTTP client and the server are not modelled. Their answers are inputs.
- Toast rendering, JSX layout and CSS (except the org chart's level colours), chart colours and plugins, the jsPDF page layout, and console logging are not modelled.
- The dashboard's PDF export is not modelled.
- `localStorage` is a map from keys to strings. Its persistence across browser sessions and its quota are not modelled.
- The asynchronous ordering of React state updates is not modelled. Each handler's effects are applied at once, in program order.
