/** The dashboard: the status counters, the two group-by histograms built with
    `reduce`, the bar charts' `suggestedMax`, and the charts that give way to
    "Sin datos disponibles" when there are no employees. */
module Home {
  import opened Comun
  import opened Registros

  /** A plain object used as a dictionary: its keys in insertion order (the
      order `Object.keys` and `Object.values` follow) and the value of each. */
  datatype Conteo = Conteo(claves: seq<string>, cuenta: map<string, nat>)

  /** The listed keys are distinct and each has a value (that every key
      with a value is listed is `HistogramaClaves`). */
  predicate Valido(c: Conteo) {
    && Distintos(c.claves)
    && (forall i :: 0 <= i < |c.claves| ==> c.claves[i] in c.cuenta)
  }

  /** `Object.values(c)`. */
  function Valores(c: Conteo): (vs: seq<nat>)
    requires Valido(c)
    ensures |vs| == |c.claves| && forall i :: 0 <= i < |vs| ==> vs[i] == c.cuenta[c.claves[i]]
  {
    seq(|c.claves|, i requires 0 <= i < |c.claves| => c.cuenta[c.claves[i]])
  }

  /** One step of the `reduce` callback (lines 36-38 and 42-44):
      `acc[k] = (acc[k] || 0) + 1`; a new key goes last. */
  function Contar(acc: Conteo, k: string): Conteo {
    if k in acc.cuenta then Conteo(acc.claves, acc.cuenta[k := acc.cuenta[k] + 1])
    else Conteo(acc.claves + [k], acc.cuenta[k := 1])
  }

  /** The dictionary `reduce` builds from the keys `ks`: each key maps to the
      number of times it occurs. */
  function Histograma(ks: seq<string>): (c: Conteo)
    ensures Valido(c)
    ensures forall k :: k in c.cuenta <==> k in ks
  {
    if ks == [] then Conteo([], map[])
    else
      var n := |ks| - 1;
      assert ks == ks[..n] + [ks[n]];
      Contar(Histograma(ks[..n]), ks[n])
  }

  /** Each key maps to the number of times it occurs, so to at least 1. */
  lemma {:induction false} HistogramaCuenta(ks: seq<string>)
    ensures forall k :: k in Histograma(ks).cuenta ==> Histograma(ks).cuenta[k] == multiset(ks)[k] >= 1
  {
    if ks != [] {
      var n := |ks| - 1;
      HistogramaCuenta(ks[..n]);
      assert ks == ks[..n] + [ks[n]];
      assert multiset(ks) == multiset(ks[..n]) + multiset{ks[n]};
    }
  }

  /** The keys come out in the order of their first occurrence, each once. */
  lemma {:induction false} HistogramaOrden(ks: seq<string>)
    ensures Histograma(ks).claves == Dedup(ks)
  {
    if ks != [] {
      HistogramaOrden(ks[..|ks| - 1]);
    }
  }

  lemma ValoresIncremento(c: Conteo, k: string)
    requires Valido(c) && k in c.cuenta && k in c.claves
    ensures Valido(Contar(c, k))
    ensures Valores(Contar(c, k)) == Valores(c)[Primera(c.claves, k) := Valores(c)[Primera(c.claves, k)] + 1]
  {
    var d := Contar(c, k);
    var j := Primera(c.claves, k);
    var vc := Valores(c);
    var a := Valores(d);
    var b := vc[j := vc[j] + 1];
    forall i | 0 <= i < |a| ensures a[i] == b[i] {
      if i != j {
        assert c.claves[i] != k;
      }
    }
  }

  lemma ValoresNuevo(c: Conteo, k: string)
    requires Valido(c) && k !in c.cuenta
    ensures Valido(Contar(c, k))
    ensures Valores(Contar(c, k)) == Valores(c) + [1]
  {
    var d := Contar(c, k);
    assert d.claves == c.claves + [k];
    assert Valido(d);
    var a, b := Valores(d), Valores(c) + [1];
    assert |a| == |b|;
    forall i | 0 <= i < |a| ensures a[i] == b[i] {
      if i < |c.claves| {
        assert d.claves[i] == c.claves[i] != k;
      }
    }
  }

  /** Every key with a value is listed in `Object.keys`. */
  lemma HistogramaClaves(ks: seq<string>)
    ensures forall k :: k in Histograma(ks).cuenta ==> k in Histograma(ks).claves
  {
    HistogramaOrden(ks);
    forall k | k in Histograma(ks).cuenta ensures k in Dedup(ks) {
      var i :| 0 <= i < |ks| && ks[i] == k;
    }
  }

  /** One counting step adds one to the sum of the values. */
  lemma SumaContar(c: Conteo, k: string)
    requires Valido(c) && (k in c.cuenta ==> k in c.claves)
    ensures Valido(Contar(c, k))
    ensures Suma(Valores(Contar(c, k))) == Suma(Valores(c)) + 1
  {
    var vs := Valores(c);
    if k in c.cuenta {
      var j := Primera(c.claves, k);
      ValoresIncremento(c, k);
      SumaIncremento(vs, j);
    } else {
      ValoresNuevo(c, k);
      SumaConcat(vs, [1]);
      assert Suma([1]) == Suma([]) + 1;
    }
  }

  /** The values add up to the number of keys counted. */
  lemma {:induction false} HistogramaSuma(ks: seq<string>)
    ensures Suma(Valores(Histograma(ks))) == |ks|
  {
    if ks != [] {
      var n := |ks| - 1;
      HistogramaSuma(ks[..n]);
      HistogramaClaves(ks[..n]);
      SumaContar(Histograma(ks[..n]), ks[n]);
    }
  }

  /** The value `acc[k]` holds in the source's object: a number, or the text
      that `+ 1` makes of an inherited function. */
  datatype ValorJS = Cuenta(n: nat) | Texto(s: string)

  /** The `{}` that `reduce` starts from, as JavaScript has it: its own keys
      in insertion order and their values. It inherits from
      `Object.prototype`. */
  datatype ConteoJS = ConteoJS(claves: seq<string>, cuenta: map<string, ValorJS>)

  /** The names `{}` inherits from `Object.prototype`. */
  const Heredadas: set<string> :=
    {"constructor", "hasOwnProperty", "isPrototypeOf", "propertyIsEnumerable", "toLocaleString",
     "toString", "valueOf", "__defineGetter__", "__defineSetter__", "__lookupGetter__",
     "__lookupSetter__", "__proto__"}

  /** `String(f)` of the inherited function named `k`. */
  function Nativa(k: string): string {
    if k == "constructor" then "function Object() { [native code] }"
    else "function " + k + "() { [native code] }"
  }

  /** `(v || 0) + 1` on a value that is already there: a number grows by
      one, a text gets `"1"` appended. */
  function MasUno(v: ValorJS): ValorJS {
    match v
    case Cuenta(n) => Cuenta(n + 1)
    case Texto(t) => Texto(t + "1")
  }

  /** `acc[k] = (acc[k] || 0) + 1` as JavaScript runs it (lines 37 and 43).
      `acc.__proto__` is the prototype, so the right side is a text, which
      the `__proto__` setter ignores. Any other inherited name reads a
      function, so `+ 1` makes a text that becomes an own key. A new key goes
      last. */
  function ContarJS(acc: ConteoJS, k: string): ConteoJS {
    if k == "__proto__" then acc
    else if k in acc.cuenta then ConteoJS(acc.claves, acc.cuenta[k := MasUno(acc.cuenta[k])])
    else if k in Heredadas then ConteoJS(acc.claves + [k], acc.cuenta[k := Texto(Nativa(k) + "1")])
    else ConteoJS(acc.claves + [k], acc.cuenta[k := Cuenta(1)])
  }

  /** The object the source's `reduce` builds from the keys `ks`. */
  function HistogramaJS(ks: seq<string>): ConteoJS {
    if ks == [] then ConteoJS([], map[])
    else ContarJS(HistogramaJS(ks[..|ks| - 1]), ks[|ks| - 1])
  }

  /** A histogram seen as a JavaScript object with number values. */
  function ComoJS(c: Conteo): ConteoJS {
    ConteoJS(c.claves, map k | k in c.cuenta :: Cuenta(c.cuenta[k]))
  }

  lemma ContarComoJS(c: Conteo, k: string)
    requires k !in Heredadas
    ensures ContarJS(ComoJS(c), k) == ComoJS(Contar(c, k))
  {
  }

  /** When no key is a name inherited from `Object.prototype`, the source's
      object is the histogram: the same keys in the same order, each holding
      its count. */
  lemma {:induction false} HistogramaJSComun(ks: seq<string>)
    requires forall i :: 0 <= i < |ks| ==> ks[i] !in Heredadas
    ensures HistogramaJS(ks) == ComoJS(Histograma(ks))
  {
    if ks != [] {
      var n := |ks| - 1;
      HistogramaJSComun(ks[..n]);
      ContarComoJS(Histograma(ks[..n]), ks[n]);
    }
  }

  /** `__proto__` is never counted: it adds no key and changes no value. */
  lemma {:induction false} ProtoNoSeCuenta(ks: seq<string>)
    ensures HistogramaJS(ks + ["__proto__"]) == HistogramaJS(ks)
    ensures "__proto__" !in HistogramaJS(ks).cuenta
  {
    assert (ks + ["__proto__"])[..|ks|] == ks;
    if ks != [] {
      ProtoNoSeCuenta(ks[..|ks| - 1]);
    }
  }

  /** Any other inherited name that occurs holds a text, never a count. */
  lemma {:induction false} HeredadaEsTexto(ks: seq<string>, k: string)
    requires k in Heredadas && k != "__proto__" && k in ks
    ensures k in HistogramaJS(ks).cuenta && HistogramaJS(ks).cuenta[k].Texto?
  {
    var n := |ks| - 1;
    if k in ks[..n] {
      HeredadaEsTexto(ks[..n], k);
    } else {
      assert ks == ks[..n] + [ks[n]];
      ClavesJS(ks[..n]);
    }
  }

  /** Only keys that occur get a value. */
  lemma {:induction false} ClavesJS(ks: seq<string>)
    ensures forall x :: x in HistogramaJS(ks).cuenta ==> x in ks
  {
    if ks != [] {
      var n := |ks| - 1;
      ClavesJS(ks[..n]);
      assert ks == ks[..n] + [ks[n]];
    }
  }

  /** One employee each in the centres `__proto__` and `constructor`: the
      source lists only `constructor`, with a text as its value, where the
      histogram has a count of 1 for each. */
  lemma NombresHeredados()
    ensures HistogramaJS(["__proto__", "constructor"]) ==
              ConteoJS(["constructor"], map["constructor" := Texto("function Object() { [native code] }1")])
    ensures Histograma(["__proto__", "constructor"]) ==
              Conteo(["__proto__", "constructor"], map["__proto__" := 1, "constructor" := 1])
  {
    assert ["__proto__", "constructor"][..1] == ["__proto__"];
    assert ["__proto__"][..0] == [];
    assert HistogramaJS(["__proto__"]) == ConteoJS([], map[]);
    assert "constructor" in Heredadas;
    assert Nativa("constructor") + "1" == "function Object() { [native code] }1";
    assert "constructor" != "__proto__";
    assert ContarJS(ConteoJS([], map[]), "constructor") ==
             ConteoJS(["constructor"], map["constructor" := Texto("function Object() { [native code] }1")]);
  }

  /** `es.reduce((acc, curr) => { ... }, {})` keyed by `clave`: the loop that
      updates `acc` in place, one employee at a time. It builds the source's
      object, which is the histogram of the keys when none of them is an
      inherited name. */
  method ContarPor(es: seq<Empleado>, clave: Empleado -> string) returns (acc: ConteoJS)
    ensures acc == HistogramaJS(Map(es, clave))
    ensures (forall i :: 0 <= i < |es| ==> clave(es[i]) !in Heredadas) ==> acc == ComoJS(Histograma(Map(es, clave)))
  {
    acc := ConteoJS([], map[]);
    var i := 0;
    while i < |es|
      invariant 0 <= i <= |es|
      invariant acc == HistogramaJS(Map(es[..i], clave))
    {
      assert Map(es[..i + 1], clave)[..i] == Map(es[..i], clave);
      acc := ContarJS(acc, clave(es[i]));
      i := i + 1;
    }
    assert es[..i] == es;
    if forall i :: 0 <= i < |es| ==> clave(es[i]) !in Heredadas {
      HistogramaJSComun(Map(es, clave));
    }
  }

  const SinAsignar := "Sin asignar"

  /** `curr.genero || 'Sin asignar'` (line 36). */
  function ClaveGenero(e: Empleado): (k: string)
    ensures k != ""
    ensures Presente(e.genero) ==> k == e.genero.value
    ensures !Presente(e.genero) ==> k == SinAsignar
  {
    if Presente(e.genero) then e.genero.value else SinAsignar
  }

  /** `curr.centro_costo?.nombre || 'Sin asignar'` (line 42). */
  function ClaveCentro(e: Empleado): (k: string)
    ensures k != ""
    ensures e.centroCosto.Some? && e.centroCosto.value.nombre != "" ==> k == e.centroCosto.value.nombre
    ensures e.centroCosto.None? || e.centroCosto.value.nombre == "" ==> k == SinAsignar
  {
    if e.centroCosto.Some? && e.centroCosto.value.nombre != "" then e.centroCosto.value.nombre else SinAsignar
  }

  /** `generoCounts` (lines 35-39). */
  method GeneroCounts(es: seq<Empleado>) returns (c: ConteoJS)
    ensures c == HistogramaJS(Map(es, ClaveGenero))
    ensures (forall i :: 0 <= i < |es| ==> ClaveGenero(es[i]) !in Heredadas) ==> c == ComoJS(Histograma(Map(es, ClaveGenero)))
  {
    c := ContarPor(es, ClaveGenero);
  }

  /** `centroCostoCounts` (lines 41-45). */
  method CentroCostoCounts(es: seq<Empleado>) returns (c: ConteoJS)
    ensures c == HistogramaJS(Map(es, ClaveCentro))
    ensures (forall i :: 0 <= i < |es| ==> ClaveCentro(es[i]) !in Heredadas) ==> c == ComoJS(Histograma(Map(es, ClaveCentro)))
  {
    c := ContarPor(es, ClaveCentro);
  }

  /** Every employee is counted once under exactly one key, so the values sum
      to the number of employees and the key of each employee is present with
      a count of at least one. */
  lemma ConteoCompleto(es: seq<Empleado>, clave: Empleado -> string)
    ensures Suma(Valores(Histograma(Map(es, clave)))) == |es|
    ensures forall i :: 0 <= i < |es| ==>
              clave(es[i]) in Histograma(Map(es, clave)).cuenta && Histograma(Map(es, clave)).cuenta[clave(es[i])] >= 1
  {
    var ks := Map(es, clave);
    HistogramaSuma(ks);
    HistogramaCuenta(ks);
    forall i | 0 <= i < |es| ensures clave(es[i]) in ks {
      assert ks[i] == clave(es[i]);
    }
  }

  /** `empleados.filter(e => e.estado === v).length`. */
  function CuentaEstado(es: seq<Empleado>, v: string): (n: nat)
    ensures n <= |es|
  {
    |Filter(es, (e: Empleado) => e.estado == v)|
  }

  /** The filter count is the number of occurrences of `v` among the states. */
  lemma {:induction false} CuentaEstadoOcurrencias(es: seq<Empleado>, v: string)
    ensures CuentaEstado(es, v) == multiset(Map(es, (e: Empleado) => e.estado))[v]
  {
    if es != [] {
      var f := (e: Empleado) => e.estado == v;
      var g := (e: Empleado) => e.estado;
      var uno := if es[0].estado == v then 1 else 0;
      assert |Filter(es, f)| == uno + |Filter(es[1..], f)| by {
        assert Filter(es, f) == (if f(es[0]) then [es[0]] else []) + Filter(es[1..], f);
      }
      assert multiset(Map(es, g))[v] == uno + multiset(Map(es[1..], g))[v] by {
        assert Map(es, g) == [es[0].estado] + Map(es[1..], g);
      }
      CuentaEstadoOcurrencias(es[1..], v);
    }
  }

  /** The five figures of the summary (lines 29-33). */
  datatype Metricas = Metricas(activos: nat, inactivos: nat, licencias: nat, busquedasAbiertas: nat, postulantes: nat)

  predicate EstaAbierta(b: Busqueda) {
    b.estado == Some("Activo")
  }

  function Resumen(es: seq<Empleado>, ls: seq<Licencia>, bs: seq<Busqueda>, ps: seq<Postulante>): (m: Metricas)
    ensures m.activos == CuentaEstado(es, "Activo") && m.inactivos == CuentaEstado(es, "Inactivo")
    ensures m.activos + m.inactivos <= |es|
    ensures m.busquedasAbiertas == |Filter(bs, EstaAbierta)| <= |bs|
    ensures m.licencias == |ls| && m.postulantes == |ps|
  {
    FilterDisjuntos(es, (e: Empleado) => e.estado == "Activo", (e: Empleado) => e.estado == "Inactivo");
    Metricas(CuentaEstado(es, "Activo"), CuentaEstado(es, "Inactivo"), |ls|,
             |Filter(bs, EstaAbierta)|, |ps|)
  }

  /** The tallest cost-centre bar, 0 when there are none. */
  function MayorCentro(es: seq<Empleado>): nat {
    Maximo(Valores(Histograma(Map(es, ClaveCentro))))
  }

  /** `suggestedMax` of the bar charts (line 63): the largest of the two
      status counts and every cost-centre count, plus 2. */
  function SuggestedMax(es: seq<Empleado>): (m: nat)
    ensures m >= CuentaEstado(es, "Activo") + 2 && m >= CuentaEstado(es, "Inactivo") + 2 && m >= MayorCentro(es) + 2
    ensures m == CuentaEstado(es, "Activo") + 2 || m == CuentaEstado(es, "Inactivo") + 2 || m == MayorCentro(es) + 2
  {
    var a, b, v := CuentaEstado(es, "Activo"), CuentaEstado(es, "Inactivo"), MayorCentro(es);
    (if a >= b && a >= v then a else if b >= v then b else v) + 2
  }

  /** The largest value bounds every value and is one of them. */
  lemma MaximoValores(c: Conteo)
    requires Valido(c) && forall k :: k in c.cuenta ==> k in c.claves
    ensures forall k :: k in c.cuenta ==> c.cuenta[k] <= Maximo(Valores(c))
    ensures c.claves != [] ==> exists k :: k in c.cuenta && c.cuenta[k] == Maximo(Valores(c))
  {
    var vs := Valores(c);
    forall k | k in c.cuenta ensures c.cuenta[k] <= Maximo(vs) {
      var j := Primera(c.claves, k);
      assert vs[j] == c.cuenta[k];
    }
    if vs != [] {
      var j :| 0 <= j < |vs| && vs[j] == Maximo(vs);
      assert c.claves[j] in c.cuenta;
    }
  }

  /** The scale leaves room of at least 2 above every cost-centre bar, and
      the tallest of those bars is one of the counts (`MaximoValores`). */
  lemma SuggestedMaxCota(es: seq<Empleado>)
    ensures forall k :: k in Histograma(Map(es, ClaveCentro)).cuenta ==>
              SuggestedMax(es) >= Histograma(Map(es, ClaveCentro)).cuenta[k] + 2
    ensures es != [] ==> exists k :: k in Histograma(Map(es, ClaveCentro)).cuenta &&
                                     Histograma(Map(es, ClaveCentro)).cuenta[k] == MayorCentro(es)
  {
    var ks := Map(es, ClaveCentro);
    var c := Histograma(ks);
    assert MayorCentro(es) == Maximo(Valores(c));
    HistogramaClaves(ks);
    MaximoValores(c);
    if es != [] {
      assert ks[0] in c.cuenta;
      assert c.claves != [];
    }
  }

  /** With no employees every count is zero and the scale tops out at 2. */
  lemma SuggestedMaxSinEmpleados()
    ensures SuggestedMax([]) == 2
  {
    assert Map([], ClaveCentro) == [];
  }

  /** A chart, or the "Sin datos disponibles" text in its place. */
  datatype Grafico = SinDatos | Grafico(etiquetas: seq<string>, valores: seq<nat>)

  const MensajeSinDatos := "Sin datos disponibles"

  /** "Empleados por Estado" (lines 129-141). */
  function GraficoEstados(es: seq<Empleado>): (g: Grafico)
    ensures g.SinDatos? <==> es == []
    ensures g.Grafico? ==> g.etiquetas == ["Activos", "Inactivos"] &&
                           g.valores == [CuentaEstado(es, "Activo"), CuentaEstado(es, "Inactivo")]
  {
    if |es| == 0 then SinDatos
    else Grafico(["Activos", "Inactivos"], [CuentaEstado(es, "Activo"), CuentaEstado(es, "Inactivo")])
  }

  /** A chart over a histogram: its keys as labels, each group once and
      first-seen first, and as each bar the number of employees in that
      group. */
  function GraficoDe(es: seq<Empleado>, clave: Empleado -> string): (g: Grafico)
    ensures g.SinDatos? <==> es == []
    ensures g.Grafico? ==> g.etiquetas == Dedup(Map(es, clave)) && |g.valores| == |g.etiquetas|
    ensures g.Grafico? ==> forall i :: 0 <= i < |g.valores| ==> g.valores[i] == multiset(Map(es, clave))[g.etiquetas[i]]
  {
    if |es| == 0 then SinDatos
    else
      var ks := Map(es, clave);
      var c := Histograma(ks);
      HistogramaOrden(ks);
      HistogramaCuenta(ks);
      Grafico(c.claves, Valores(c))
  }

  /** The gender pie and the cost-centre bars (lines 148-189) list each group
      once, first-seen first, and their slices add up to the employees. */
  lemma {:induction false} GraficosDeGrupo(es: seq<Empleado>)
    requires es != []
    ensures GraficoDe(es, ClaveGenero).etiquetas == Dedup(Map(es, ClaveGenero))
    ensures GraficoDe(es, ClaveCentro).etiquetas == Dedup(Map(es, ClaveCentro))
    ensures Suma(GraficoDe(es, ClaveGenero).valores) == |es|
    ensures Suma(GraficoDe(es, ClaveCentro).valores) == |es|
  {
    HistogramaOrden(Map(es, ClaveGenero));
    HistogramaOrden(Map(es, ClaveCentro));
    ConteoCompleto(es, ClaveGenero);
    ConteoCompleto(es, ClaveCentro);
  }
}
