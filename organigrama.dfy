/** The org chart: `construirJerarquia` turns the flat list of positions into a
    forest, and `renderNodo` draws that forest depth-first.

    In the page, `mapa` holds one node object per id and the second pass
    pushes references to those objects into `raiz` and into other nodes'
    `hijos`. Every reference pushed is `mapa[p.id]` for some key, and `mapa`
    gains no key after the first pass, so a reference is named here by its
    key: `hijos` and `raiz` are sequences of ids, and the object a reference
    points to is `mapa[id]`. Pushing into a node's `hijos` in place is an
    update of that key's entry. */
module Organigrama {
  import opened Comun
  import opened Texto
  import opened Registros

  /** Truthiness of `p.jefe_id` (line 15): `null` and `0` are falsy. */
  predicate TieneJefe(p: Puesto) {
    p.jefeId.Some? && p.jefeId.value != 0
  }

  /** `{ ...p, hijos: [] }`, with `hijos` holding the ids of the child nodes. */
  datatype Nodo = Nodo(puesto: Puesto, hijos: seq<int>)

  function Ids(ps: seq<Puesto>): set<int> {
    set i | 0 <= i < |ps| :: ps[i].id
  }

  predicate IdsUnicos(ps: seq<Puesto>) {
    forall i, j :: 0 <= i < j < |ps| ==> ps[i].id != ps[j].id
  }

  lemma IdsPrefijo(ps: seq<Puesto>, i: nat)
    requires i < |ps|
    ensures Ids(ps[..i + 1]) == Ids(ps[..i]) + {ps[i].id}
  {
    var a, b := ps[..i + 1], ps[..i];
    forall x | x in Ids(a) ensures x in Ids(b) + {ps[i].id} {
      var j :| 0 <= j < |a| && a[j].id == x;
      if j < i { assert b[j].id == x; }
    }
    forall x | x in Ids(b) + {ps[i].id} ensures x in Ids(a) {
      if x == ps[i].id {
        assert a[i].id == x;
      } else {
        var j :| 0 <= j < |b| && b[j].id == x;
        assert a[j].id == x;
      }
    }
  }

  /** The record `mapa[id]` is built from: line 10 overwrites, so the last
      record with that id wins. */
  function Ultimo(ps: seq<Puesto>, id: int): (p: Puesto)
    requires id in Ids(ps)
    ensures exists i :: 0 <= i < |ps| && ps[i] == p && p.id == id &&
                        forall j :: i < j < |ps| ==> ps[j].id != id
    decreases |ps|
  {
    var n := |ps| - 1;
    if ps[n].id == id then ps[n]
    else
      IdsPrefijo(ps, n);
      assert ps[..n + 1] == ps;
      var p := Ultimo(ps[..n], id);
      assert forall i :: 0 <= i < n ==> ps[..n][i] == ps[i];
      p
  }

  /** With unique ids the node of each record is built from that record. */
  lemma UltimoUnico(ps: seq<Puesto>, i: nat)
    requires IdsUnicos(ps) && i < |ps|
    ensures ps[i].id in Ids(ps) && Ultimo(ps, ps[i].id) == ps[i]
  {
    assert ps[i].id in Ids(ps);
  }

  /** Where the second pass (lines 14-19) puts the node of record `p`, given
      the keys of `mapa`: a falsy `jefe_id` makes it a root; a truthy one that
      is a key appends it to that node's `hijos`; a truthy one that is not a
      key makes `mapa[p.jefe_id]?.` skip the push, so it goes nowhere. */
  datatype Destino = ARaiz | AHijosDe(jefe: int) | Descartado

  function DestinoDe(p: Puesto, claves: set<int>): Destino {
    if !TieneJefe(p) then ARaiz
    else if p.jefeId.value in claves then AHijosDe(p.jefeId.value)
    else Descartado
  }

  /** The ids of the records of `ps` sent to `d`, in input order. */
  function Colocados(ps: seq<Puesto>, claves: set<int>, d: Destino): seq<int> {
    if ps == [] then []
    else
      var n := |ps| - 1;
      Colocados(ps[..n], claves, d) + (if DestinoDe(ps[n], claves) == d then [ps[n].id] else [])
  }

  /** `raiz` as `construirJerarquia` returns it. */
  function Raices(ps: seq<Puesto>): seq<int> {
    Colocados(ps, Ids(ps), ARaiz)
  }

  /** `mapa[k].hijos` once both passes are done. */
  function HijosDe(ps: seq<Puesto>, k: int): seq<int> {
    Colocados(ps, Ids(ps), AHijosDe(k))
  }

  /** `mapa` once both passes are done. */
  function Jerarquia(ps: seq<Puesto>): map<int, Nodo> {
    map k | k in Ids(ps) :: Nodo(Ultimo(ps, k), HijosDe(ps, k))
  }

  /** First pass (lines 8-11): one node per id, copying the last record with
      that id and with no children yet. */
  method ConstruirMapa(puestos: seq<Puesto>) returns (mapa: map<int, Nodo>)
    ensures mapa.Keys == Ids(puestos)
    ensures forall k :: k in mapa ==> mapa[k] == Nodo(Ultimo(puestos, k), [])
  {
    mapa := map[];
    var i := 0;
    while i < |puestos|
      invariant 0 <= i <= |puestos|
      invariant mapa.Keys == Ids(puestos[..i])
      invariant forall k :: k in mapa ==> mapa[k] == Nodo(Ultimo(puestos[..i], k), [])
    {
      var p := puestos[i];
      IdsPrefijo(puestos, i);
      assert puestos[..i + 1][..i] == puestos[..i];
      mapa := mapa[p.id := Nodo(p, [])];
      i := i + 1;
    }
    assert puestos[..i] == puestos;
  }

  /** The callback of the second `forEach` (lines 15-19) for one record:
      a falsy `jefe_id` appends the node to `raiz`; a truthy one appends it to
      the boss node's `hijos` when that node exists, and does nothing when it
      does not. No key of `mapa` is added or removed. */
  method Enlazar(p: Puesto, mapa: map<int, Nodo>, raiz: seq<int>)
    returns (mapa': map<int, Nodo>, raiz': seq<int>)
    ensures mapa'.Keys == mapa.Keys
    ensures raiz' == raiz + (if DestinoDe(p, mapa.Keys) == ARaiz then [p.id] else [])
    ensures forall k :: k in mapa ==>
              mapa'[k] == mapa[k].(hijos := mapa[k].hijos +
                                     (if DestinoDe(p, mapa.Keys) == AHijosDe(k) then [p.id] else []))
  {
    mapa', raiz' := mapa, raiz;
    if TieneJefe(p) {
      if p.jefeId.value in mapa {
        var jefe := mapa[p.jefeId.value];
        mapa' := mapa[p.jefeId.value := jefe.(hijos := jefe.hijos + [p.id])];
      }
    } else {
      raiz' := raiz + [p.id];
    }
  }

  /** `construirJerarquia` (lines 7-23): the first pass, then the second pass
      that appends each node to `raiz` or to its boss's `hijos`. The result is
      the forest `Jerarquia(puestos)` with roots `Raices(puestos)`. */
  method ConstruirJerarquia(puestos: seq<Puesto>) returns (mapa: map<int, Nodo>, raiz: seq<int>)
    ensures mapa == Jerarquia(puestos)
    ensures raiz == Raices(puestos)
  {
    mapa := ConstruirMapa(puestos);
    ghost var claves := Ids(puestos);
    raiz := [];
    var i := 0;
    assert puestos[..0] == [];
    while i < |puestos|
      invariant 0 <= i <= |puestos|
      invariant mapa.Keys == claves
      invariant forall k :: k in mapa ==>
                  mapa[k] == Nodo(Ultimo(puestos, k), Colocados(puestos[..i], claves, AHijosDe(k)))
      invariant raiz == Colocados(puestos[..i], claves, ARaiz)
    {
      ghost var antes := mapa;
      mapa, raiz := Enlazar(puestos[i], mapa, raiz);
      ColocadosPaso(puestos, i, claves, ARaiz);
      EnlazarPaso(puestos, i, antes, mapa);
      i := i + 1;
    }
    assert puestos[..i] == puestos;
    EsJerarquia(puestos, mapa);
  }

  /** Linking record `i` turns the nodes built from the first `i` records
      into the nodes built from the first `i + 1`. */
  lemma EnlazarPaso(ps: seq<Puesto>, i: nat, antes: map<int, Nodo>, despues: map<int, Nodo>)
    requires i < |ps|
    requires antes.Keys == Ids(ps) && despues.Keys == Ids(ps)
    requires forall k :: k in antes ==>
               antes[k] == Nodo(Ultimo(ps, k), Colocados(ps[..i], Ids(ps), AHijosDe(k)))
    requires forall k :: k in antes ==>
               despues[k] == antes[k].(hijos := antes[k].hijos +
                                         (if DestinoDe(ps[i], antes.Keys) == AHijosDe(k) then [ps[i].id] else []))
    ensures forall k :: k in despues ==>
              despues[k] == Nodo(Ultimo(ps, k), Colocados(ps[..i + 1], Ids(ps), AHijosDe(k)))
  {
    forall k | k in despues
      ensures despues[k] == Nodo(Ultimo(ps, k), Colocados(ps[..i + 1], Ids(ps), AHijosDe(k)))
    {
      ColocadosPaso(ps, i, Ids(ps), AHijosDe(k));
    }
  }

  /** A map with the ids of `ps` as keys, holding at each key the node the
      two passes build for it, is `Jerarquia(ps)`. */
  lemma EsJerarquia(ps: seq<Puesto>, mapa: map<int, Nodo>)
    requires mapa.Keys == Ids(ps)
    requires forall k :: k in mapa ==> mapa[k] == Nodo(Ultimo(ps, k), Colocados(ps, Ids(ps), AHijosDe(k)))
    ensures mapa == Jerarquia(ps)
  {
    assert mapa.Keys == Jerarquia(ps).Keys;
    assert forall k :: k in mapa ==> mapa[k] == Jerarquia(ps)[k];
  }

  /** One more record in the prefix adds at most its own id at the end. */
  lemma ColocadosPaso(ps: seq<Puesto>, i: nat, claves: set<int>, d: Destino)
    requires i < |ps|
    ensures Colocados(ps[..i + 1], claves, d) ==
              Colocados(ps[..i], claves, d) + (if DestinoDe(ps[i], claves) == d then [ps[i].id] else [])
  {
    assert ps[..i + 1][..i] == ps[..i];
  }

  lemma {:induction false} ColocadosConcat(a: seq<Puesto>, b: seq<Puesto>, claves: set<int>, d: Destino)
    ensures Colocados(a + b, claves, d) == Colocados(a, claves, d) + Colocados(b, claves, d)
  {
    if b == [] {
      assert a + b == a;
    } else {
      var n := |b| - 1;
      assert (a + b)[..|a + b| - 1] == a + b[..n];
      ColocadosConcat(a, b[..n], claves, d);
    }
  }

  lemma {:induction false} ColocadosMiembro(ps: seq<Puesto>, claves: set<int>, d: Destino, x: int)
    ensures x in Colocados(ps, claves, d) <==>
              exists i :: 0 <= i < |ps| && ps[i].id == x && DestinoDe(ps[i], claves) == d
  {
    if ps != [] {
      var n := |ps| - 1;
      ColocadosMiembro(ps[..n], claves, d, x);
      assert forall i :: 0 <= i < n ==> ps[..n][i] == ps[i];
    }
  }

  /** The occurrences of `x` grow by one with a last record of id `x` at
      destination `d`, and stay the same otherwise. */
  lemma ColocadosCuenta(ps: seq<Puesto>, claves: set<int>, d: Destino, x: int)
    requires ps != []
    ensures multiset(Colocados(ps, claves, d))[x] ==
              multiset(Colocados(ps[..|ps| - 1], claves, d))[x] +
              (if DestinoDe(ps[|ps| - 1], claves) == d && ps[|ps| - 1].id == x then 1 else 0)
  {
    var n := |ps| - 1;
    var cola := if DestinoDe(ps[n], claves) == d then [ps[n].id] else [];
    assert Colocados(ps, claves, d) == Colocados(ps[..n], claves, d) + cola;
  }

  /** The last record's id, unique in the list, is not placed by the records
      before it. */
  lemma ColocadosAntesDelUltimo(ps: seq<Puesto>, claves: set<int>, d: Destino)
    requires IdsUnicos(ps) && ps != []
    ensures ps[|ps| - 1].id !in Colocados(ps[..|ps| - 1], claves, d)
  {
    var n := |ps| - 1;
    ColocadosMiembro(ps[..n], claves, d, ps[n].id);
    forall j | 0 <= j < n ensures ps[..n][j].id != ps[n].id {
      assert ps[..n][j] == ps[j];
    }
  }

  lemma UnicosPrefijo(ps: seq<Puesto>, n: nat)
    requires IdsUnicos(ps) && n <= |ps|
    ensures IdsUnicos(ps[..n])
  {
    forall a, b | 0 <= a < b < n ensures ps[..n][a].id != ps[..n][b].id {
      assert ps[..n][a] == ps[a] && ps[..n][b] == ps[b];
    }
  }

  /** With unique ids a record's node is placed exactly once at its own
      destination and nowhere else. */
  lemma {:induction false} ColocadosUnaVez(ps: seq<Puesto>, claves: set<int>, d: Destino, i: nat)
    requires IdsUnicos(ps) && i < |ps|
    ensures multiset(Colocados(ps, claves, d))[ps[i].id] ==
              if DestinoDe(ps[i], claves) == d then 1 else 0
  {
    var n := |ps| - 1;
    var pre := ps[..n];
    var x := ps[i].id;
    var uno := if DestinoDe(ps[i], claves) == d then 1 else 0;
    ColocadosCuenta(ps, claves, d, x);
    if i < n {
      assert multiset(Colocados(pre, claves, d))[x] == uno && ps[n].id != x by {
        UnicosPrefijo(ps, n);
        assert pre[i] == ps[i];
        ColocadosUnaVez(pre, claves, d, i);
      }
    } else {
      assert multiset(Colocados(pre, claves, d))[x] == 0 by {
        ColocadosAntesDelUltimo(ps, claves, d);
      }
    }
  }

  /** Roots are exactly the positions with a falsy `jefe_id` (their order is
      the input order: `ColocadosConcat`). */
  lemma RaicesSon(ps: seq<Puesto>, x: int)
    ensures x in Raices(ps) <==> exists i :: 0 <= i < |ps| && ps[i].id == x && !TieneJefe(ps[i])
  {
    ColocadosMiembro(ps, Ids(ps), ARaiz, x);
  }

  /** The children of `k` are exactly the positions whose truthy `jefe_id` is
      `k`, and only when `k` is the id of some position. */
  lemma HijosSon(ps: seq<Puesto>, k: int, x: int)
    ensures x in HijosDe(ps, k) <==>
              k in Ids(ps) && exists i :: 0 <= i < |ps| && ps[i].id == x && TieneJefe(ps[i]) && ps[i].jefeId.value == k
  {
    ColocadosMiembro(ps, Ids(ps), AHijosDe(k), x);
  }

  /** With unique ids: a root's own record has a falsy `jefe_id`, and a
      child's own record names its parent in `jefe_id`. */
  lemma {:induction false} UbicacionUnica(ps: seq<Puesto>, x: int)
    requires IdsUnicos(ps)
    ensures x in Raices(ps) ==> x in Ids(ps) && !TieneJefe(Ultimo(ps, x))
    ensures forall k :: x in HijosDe(ps, k) ==>
              k in Ids(ps) && x in Ids(ps) && TieneJefe(Ultimo(ps, x)) && Ultimo(ps, x).jefeId.value == k
  {
    RaicesSon(ps, x);
    if x in Raices(ps) {
      var i :| 0 <= i < |ps| && ps[i].id == x && !TieneJefe(ps[i]);
      UltimoUnico(ps, i);
    }
    forall k | x in HijosDe(ps, k)
      ensures k in Ids(ps) && x in Ids(ps) && TieneJefe(Ultimo(ps, x)) && Ultimo(ps, x).jefeId.value == k
    {
      HijosSon(ps, k, x);
      var i :| 0 <= i < |ps| && ps[i].id == x && TieneJefe(ps[i]) && ps[i].jefeId.value == k;
      UltimoUnico(ps, i);
    }
  }

  /** With unique ids every position appears exactly once in the forest when
      its `jefe_id` is falsy (in `raiz`) or names an existing position (in
      that node's `hijos`), and nowhere otherwise. In particular a position
      whose truthy `jefe_id` names no position is dropped: it is neither a
      root nor anybody's child. */
  lemma ApareceUnaVez(ps: seq<Puesto>, i: nat)
    requires IdsUnicos(ps) && i < |ps|
    ensures multiset(Raices(ps))[ps[i].id] == if !TieneJefe(ps[i]) then 1 else 0
    ensures forall k :: multiset(HijosDe(ps, k))[ps[i].id] ==
              if TieneJefe(ps[i]) && ps[i].jefeId.value == k && k in Ids(ps) then 1 else 0
  {
    ColocadosUnaVez(ps, Ids(ps), ARaiz, i);
    forall k
      ensures multiset(HijosDe(ps, k))[ps[i].id] ==
                if TieneJefe(ps[i]) && ps[i].jefeId.value == k && k in Ids(ps) then 1 else 0
    {
      ColocadosUnaVez(ps, Ids(ps), AHijosDe(k), i);
    }
  }

  /** The records that get linked somewhere: a falsy `jefe_id`, or a truthy
      one that names an existing position. */
  function Enlazados(ps: seq<Puesto>, claves: set<int>): seq<Puesto> {
    Filter(ps, (p: Puesto) => DestinoDe(p, claves) != Descartado)
  }

  /** The total length of the `hijos` lists of the keys `ks`. */
  function SumaHijos(ps: seq<Puesto>, claves: set<int>, ks: seq<int>): nat {
    if ks == [] then 0
    else SumaHijos(ps, claves, ks[..|ks| - 1]) + |Colocados(ps, claves, AHijosDe(ks[|ks| - 1]))|
  }

  /** Appending one record to the list grows the `hijos` lists of `ks` by the
      number of times its boss occurs in `ks`. */
  lemma {:induction false} SumaHijosPaso(ps: seq<Puesto>, p: Puesto, claves: set<int>, ks: seq<int>)
    ensures SumaHijos(ps + [p], claves, ks) ==
              SumaHijos(ps, claves, ks) +
              (match DestinoDe(p, claves) case AHijosDe(j) => multiset(ks)[j] case _ => 0)
  {
    assert (ps + [p])[..|ps|] == ps;
    if ks != [] {
      var n := |ks| - 1;
      SumaHijosPaso(ps, p, claves, ks[..n]);
      assert ks == ks[..n] + [ks[n]];
      assert multiset(ks) == multiset(ks[..n]) + multiset{ks[n]};
    }
  }

  lemma {:induction false} SumaHijosVacia(claves: set<int>, ks: seq<int>)
    ensures SumaHijos([], claves, ks) == 0
  {
    if ks != [] {
      SumaHijosVacia(claves, ks[..|ks| - 1]);
    }
  }

  lemma {:induction false} AparicionesGeneral(ps: seq<Puesto>, claves: set<int>, ks: seq<int>)
    requires Distintos(ks) && forall k :: k in claves ==> k in ks
    ensures |Colocados(ps, claves, ARaiz)| + SumaHijos(ps, claves, ks) == |Enlazados(ps, claves)|
  {
    if ps == [] {
      SumaHijosVacia(claves, ks);
    } else {
      var n := |ps| - 1;
      var p := ps[n];
      assert ps == ps[..n] + [p];
      AparicionesGeneral(ps[..n], claves, ks);
      SumaHijosPaso(ps[..n], p, claves, ks);
      FilterConcat(ps[..n], [p], (q: Puesto) => DestinoDe(q, claves) != Descartado);
      match DestinoDe(p, claves)
      case AHijosDe(j) =>
        assert j in ks;
        var i :| 0 <= i < |ks| && ks[i] == j;
        MultiplicidadUno(ks, i);
      case _ =>
    }
  }

  lemma {:induction false} MultiplicidadUno(ks: seq<int>, i: nat)
    requires Distintos(ks) && i < |ks|
    ensures multiset(ks)[ks[i]] == 1
  {
    var n := |ks| - 1;
    assert ks == ks[..n] + [ks[n]];
    assert multiset(ks) == multiset(ks[..n]) + multiset{ks[n]};
    if i < n {
      MultiplicidadUno(ks[..n], i);
    } else {
      assert ks[n] !in ks[..n];
    }
  }

  /** Every key of `mapa`, each once, in first-occurrence order. */
  function Claves(ps: seq<Puesto>): (ks: seq<int>)
    ensures Distintos(ks) && forall k :: k in Ids(ps) ==> k in ks
  {
    var ks := Dedup(Map(ps, (p: Puesto) => p.id));
    assert forall k :: k in Ids(ps) ==> k in ks by {
      forall k | k in Ids(ps) ensures k in ks {
        var i :| 0 <= i < |ps| && ps[i].id == k;
        assert Map(ps, (p: Puesto) => p.id)[i] == k;
      }
    }
    ks
  }

  /** Counting `raiz` plus every node's `hijos`, the forest holds exactly as
      many entries as there are records with a falsy `jefe_id` or a `jefe_id`
      naming an existing position; with unique ids each of those records is
      one entry (`ApareceUnaVez`). */
  lemma Apariciones(ps: seq<Puesto>)
    ensures |Raices(ps)| + SumaHijos(ps, Ids(ps), Claves(ps)) == |Enlazados(ps, Ids(ps))|
  {
    AparicionesGeneral(ps, Ids(ps), Claves(ps));
  }

  /** `c` is a path down the forest: it starts at a root, and each next id is
      a child of the previous one. */
  ghost predicate CaminoValido(ps: seq<Puesto>, c: seq<int>) {
    && |c| >= 1
    && c[0] in Raices(ps)
    && (forall i :: 0 <= i < |c| - 1 ==> c[i + 1] in HijosDe(ps, c[i]))
  }

  /** `x` can be reached from `raiz` by following `hijos`. */
  ghost predicate Alcanzable(ps: seq<Puesto>, x: int) {
    exists c :: CaminoValido(ps, c) && c[|c| - 1] == x
  }

  lemma CaminoPrefijo(ps: seq<Puesto>, c: seq<int>, n: nat)
    requires CaminoValido(ps, c) && 1 <= n <= |c|
    ensures CaminoValido(ps, c[..n])
  {
    assert forall i :: 0 <= i < n ==> c[..n][i] == c[i];
  }

  /** With unique ids no path down the forest visits a node twice, and every
      node on it is a position of the list. */
  lemma {:induction false} CaminoSinRepetidos(ps: seq<Puesto>, c: seq<int>)
    requires IdsUnicos(ps) && CaminoValido(ps, c)
    ensures Distintos(c) && forall i :: 0 <= i < |c| ==> c[i] in Ids(ps)
    decreases |c|
  {
    var n := |c| - 1;
    var x := c[n];
    if n == 0 {
      UbicacionUnica(ps, x);
    } else {
      CaminoPrefijo(ps, c, n);
      CaminoSinRepetidos(ps, c[..n]);
      assert forall i :: 0 <= i < n ==> c[..n][i] == c[i];
      UbicacionUnica(ps, x);
      assert x in HijosDe(ps, c[n - 1]);
      forall i | 0 <= i < n ensures c[i] != x {
        if i == 0 {
          UbicacionUnica(ps, c[0]);
        } else {
          UbicacionUnica(ps, c[i]);
          assert c[i] in HijosDe(ps, c[i - 1]);
        }
      }
    }
  }

  lemma {:induction false} DistintosAcotados(c: seq<int>, s: set<int>)
    requires Distintos(c) && forall i :: 0 <= i < |c| ==> c[i] in s
    ensures |c| <= |s|
  {
    if c != [] {
      var n := |c| - 1;
      assert Distintos(c[..n]);
      assert forall i :: 0 <= i < n ==> c[..n][i] in s - {c[n]};
      DistintosAcotados(c[..n], s - {c[n]});
    }
  }

  /** Every node on a path down the forest is a position of the list. */
  lemma CaminoEnIds(ps: seq<Puesto>, c: seq<int>)
    requires CaminoValido(ps, c)
    ensures forall i :: 0 <= i < |c| ==> c[i] in Ids(ps)
  {
    forall i | 0 <= i < |c| ensures c[i] in Ids(ps) {
      if i == 0 {
        RaicesSon(ps, c[0]);
      } else {
        HijosSon(ps, c[i - 1], c[i]);
      }
    }
  }

  /** No path down the forest visits a node twice. These are exactly the
      lists for which `renderNodo` returns: otherwise the paths have every
      length (`CicloSinFin`). */
  ghost predicate SinCiclos(ps: seq<Puesto>) {
    forall c {:trigger Distintos(c)} :: CaminoValido(ps, c) ==> Distintos(c)
  }

  /** Unique ids are one way to meet `SinCiclos`. */
  lemma UnicosSinCiclos(ps: seq<Puesto>)
    requires IdsUnicos(ps)
    ensures SinCiclos(ps)
  {
    forall c | CaminoValido(ps, c) ensures Distintos(c) {
      CaminoSinRepetidos(ps, c);
    }
  }

  /** A path that repeats a node goes round the loop once more. */
  lemma Alargar(ps: seq<Puesto>, c: seq<int>, i: nat, j: nat)
    requires CaminoValido(ps, c) && i < j < |c| && c[i] == c[j]
    ensures CaminoValido(ps, c[..j + 1] + c[i + 1..])
  {
    var d := c[..j + 1] + c[i + 1..];
    forall m | 0 <= m < |d| - 1 ensures d[m + 1] in HijosDe(ps, d[m]) {
      if m < j {
        assert d[m] == c[m] && d[m + 1] == c[m + 1];
      } else if m == j {
        assert d[m] == c[i] && d[m + 1] == c[i + 1];
      } else {
        assert d[m] == c[m - j + i] && d[m + 1] == c[m - j + i + 1];
      }
    }
    assert d[0] == c[0];
  }

  /** Once a path repeats a node there are paths of every length, so
      `renderNodo` never returns. */
  lemma {:induction false} CicloSinFin(ps: seq<Puesto>, c: seq<int>, n: nat)
    requires CaminoValido(ps, c) && !Distintos(c)
    ensures exists d :: CaminoValido(ps, d) && |d| >= n
    decreases n - |c|
  {
    if |c| < n {
      var i, j :| 0 <= i < j < |c| && c[i] == c[j];
      Alargar(ps, c, i, j);
      var d := c[..j + 1] + c[i + 1..];
      assert d[i] == c[i] && d[j] == c[j];
      CicloSinFin(ps, d, n);
    }
  }

  /** Without repeated nodes a path is no longer than the number of
      distinct ids. */
  lemma CaminoAcotado(ps: seq<Puesto>, c: seq<int>)
    requires SinCiclos(ps) && CaminoValido(ps, c)
    ensures |c| <= |Ids(ps)|
  {
    assert Distintos(c);
    CaminoEnIds(ps, c);
    DistintosAcotados(c, Ids(ps));
  }

  /** A set of positions closed under "boss of": each member's record has a
      truthy `jefe_id` that names another member. Every boss cycle, including
      a position whose `jefe_id` is its own id, is such a set. */
  ghost predicate Cerrado(ps: seq<Puesto>, s: set<int>) {
    forall x :: x in s ==> x in Ids(ps) && TieneJefe(Ultimo(ps, x)) && Ultimo(ps, x).jefeId.value in s
  }

  /** `cyc` lists a boss cycle: the boss of each entry is the next one, and the
      boss of the last is the first. */
  ghost predicate EsCiclo(ps: seq<Puesto>, cyc: seq<int>) {
    && |cyc| >= 1
    && (forall i :: 0 <= i < |cyc| ==> cyc[i] in Ids(ps) && TieneJefe(Ultimo(ps, cyc[i])))
    && (forall i :: 0 <= i < |cyc| - 1 ==> Ultimo(ps, cyc[i]).jefeId.value == cyc[i + 1])
    && Ultimo(ps, cyc[|cyc| - 1]).jefeId.value == cyc[0]
  }

  lemma CicloCerrado(ps: seq<Puesto>, cyc: seq<int>)
    requires EsCiclo(ps, cyc)
    ensures Cerrado(ps, set i | 0 <= i < |cyc| :: cyc[i])
  {
    var s := set i | 0 <= i < |cyc| :: cyc[i];
    forall x | x in s ensures x in Ids(ps) && TieneJefe(Ultimo(ps, x)) && Ultimo(ps, x).jefeId.value in s {
      var i :| 0 <= i < |cyc| && cyc[i] == x;
      if i < |cyc| - 1 {
        assert cyc[i + 1] in s;
      } else {
        assert cyc[0] in s;
      }
    }
  }

  /** With unique ids no node of a boss-closed set (so no node on a boss
      cycle) lies on a path from `raiz`: walking up from it never reaches a
      position with a falsy `jefe_id`. */
  lemma {:induction false} CerradoInalcanzable(ps: seq<Puesto>, s: set<int>, c: seq<int>)
    requires IdsUnicos(ps) && Cerrado(ps, s) && CaminoValido(ps, c)
    ensures forall j :: 0 <= j < |c| ==> c[j] !in s
    decreases |c|
  {
    var n := |c| - 1;
    if n == 0 {
      UbicacionUnica(ps, c[0]);
    } else {
      CaminoPrefijo(ps, c, n);
      CerradoInalcanzable(ps, s, c[..n]);
      assert forall j :: 0 <= j < n ==> c[..n][j] == c[j];
      UbicacionUnica(ps, c[n]);
      assert c[n - 1] !in s;
    }
  }

  /** Style of a node's box by depth (lines 28-34): blue for the roots, green
      one level down, gray for every deeper level. */
  datatype Estilo = Azul | Verde | Gris

  function EstiloDe(nivel: nat): (e: Estilo)
    ensures e == Azul <==> nivel == 0
    ensures e == Verde <==> nivel == 1
    ensures e == Gris <==> nivel >= 2
  {
    if nivel == 0 then Azul else if nivel == 1 then Verde else Gris
  }

  /** The text of a node's box (lines 36-37): `nombre`, then
      `" - " + descripcion` only when the description is truthy. */
  function Etiqueta(p: Puesto): (t: string)
    ensures |t| >= |p.nombre| && t[..|p.nombre|] == p.nombre
    ensures Presente(p.descripcion) ==> t[|p.nombre|..] == " - " + p.descripcion.value
    ensures !Presente(p.descripcion) ==> t == p.nombre
  {
    if Presente(p.descripcion) then p.nombre + " - " + p.descripcion.value else p.nombre
  }

  /** One drawn node: its id, depth, style and text. The nested `<li>`/`<ul>`
      markup is represented by the pre-order sequence of these lines, from
      which the nesting is recovered by the depths. */
  datatype Linea = Linea(id: int, nivel: nat, estilo: Estilo, etiqueta: string)

  /** The ids of the lines drawn at depth `nivel`, in order. */
  function IdsEnNivel(ls: seq<Linea>, nivel: nat): seq<int> {
    if ls == [] then []
    else (if ls[0].nivel == nivel then [ls[0].id] else []) + IdsEnNivel(ls[1..], nivel)
  }

  lemma {:induction false} IdsEnNivelConcat(a: seq<Linea>, b: seq<Linea>, nivel: nat)
    ensures IdsEnNivel(a + b, nivel) == IdsEnNivel(a, nivel) + IdsEnNivel(b, nivel)
  {
    if a == [] {
      assert a + b == b;
    } else {
      var c := if a[0].nivel == nivel then [a[0].id] else [];
      assert (a + b)[0] == a[0] && (a + b)[1..] == a[1..] + b;
      assert IdsEnNivel(a + b, nivel) == c + IdsEnNivel(a[1..] + b, nivel);
      IdsEnNivelConcat(a[1..], b, nivel);
      assert IdsEnNivel(a, nivel) == c + IdsEnNivel(a[1..], nivel);
    }
  }

  lemma {:induction false} IdsEnNivelNinguno(ls: seq<Linea>, nivel: nat)
    requires forall i :: 0 <= i < |ls| ==> ls[i].nivel > nivel
    ensures IdsEnNivel(ls, nivel) == []
  {
    if ls != [] {
      IdsEnNivelNinguno(ls[1..], nivel);
    }
  }

  /** Every line of `r` is at depth `nivel` or deeper, has the style of its
      depth, draws a node reachable from `raiz`, and shows the text of the
      record that node was built from. */
  ghost predicate Dibujado(ps: seq<Puesto>, r: seq<Linea>, nivel: nat) {
    forall i :: 0 <= i < |r| ==> LineaDibujada(ps, r[i], nivel)
  }

  ghost predicate LineaDibujada(ps: seq<Puesto>, l: Linea, nivel: nat) {
    && l.nivel >= nivel && l.estilo == EstiloDe(l.nivel) && Alcanzable(ps, l.id)
    && l.id in Ids(ps) && l.etiqueta == Etiqueta(Ultimo(ps, l.id))
  }

  lemma DibujadoConcat(ps: seq<Puesto>, a: seq<Linea>, b: seq<Linea>, nivel: nat)
    requires Dibujado(ps, a, nivel) && Dibujado(ps, b, nivel)
    ensures Dibujado(ps, a + b, nivel)
  {
    forall i | 0 <= i < |a + b| ensures LineaDibujada(ps, (a + b)[i], nivel) {
      if i < |a| {
        assert (a + b)[i] == a[i];
      } else {
        assert (a + b)[i] == b[i - |a|];
      }
    }
  }

  /** The end `k` of a path is a reachable node, and each child of `k`
      extends the path. */
  lemma CaminoHijos(ps: seq<Puesto>, camino: seq<int>, k: int)
    requires CaminoValido(ps, camino + [k])
    ensures k in Ids(ps) && Alcanzable(ps, k)
    ensures forall i :: 0 <= i < |HijosDe(ps, k)| ==> CaminoValido(ps, camino + [k] + [HijosDe(ps, k)[i]])
  {
    var c := camino + [k];
    CaminoEnIds(ps, c);
    assert k == c[|camino|];
    assert c[|c| - 1] == k;
    var hs := HijosDe(ps, k);
    forall i | 0 <= i < |hs| ensures CaminoValido(ps, c + [hs[i]]) {
      var c' := c + [hs[i]];
      assert forall j :: 0 <= j < |c| ==> c'[j] == c[j];
    }
  }

  /** A drawing whose first line is at depth `nivel` and the rest deeper has
      that first line as its only line at `nivel`. */
  lemma IdsEnNivelArbol(ls: seq<Linea>, nivel: nat)
    requires |ls| >= 1 && ls[0].nivel == nivel
    requires forall i :: 1 <= i < |ls| ==> ls[i].nivel > nivel
    ensures IdsEnNivel(ls, nivel) == [ls[0].id]
  {
    IdsEnNivelNinguno(ls[1..], nivel);
  }

  lemma {:induction false} IdsEnNivelMiembro(ls: seq<Linea>, nivel: nat, x: int)
    requires x in IdsEnNivel(ls, nivel)
    ensures exists i :: 0 <= i < |ls| && ls[i].id == x && ls[i].nivel == nivel
  {
    if ls[0].nivel != nivel || ls[0].id != x {
      IdsEnNivelMiembro(ls[1..], nivel, x);
      var i :| 0 <= i < |ls[1..]| && ls[1..][i].id == x && ls[1..][i].nivel == nivel;
      assert ls[i + 1] == ls[1..][i];
    }
  }

  /** The first line from index `e` on that is no deeper than `nivel`, or the
      end of the drawing. */
  function FinDesde(r: seq<Linea>, nivel: nat, e: nat): (f: nat)
    requires e <= |r|
    ensures e <= f <= |r|
    ensures forall m :: e <= m < f ==> r[m].nivel > nivel
    ensures f == |r| || r[f].nivel <= nivel
    decreases |r| - e
  {
    if e == |r| || r[e].nivel <= nivel then e else FinDesde(r, nivel, e + 1)
  }

  /** The lines drawn under line `j`: those after it up to the next line no
      deeper than it. In the page they are the contents of that node's
      `<ul>`. */
  function Debajo(r: seq<Linea>, j: nat): (s: seq<Linea>)
    requires j < |r|
    ensures forall m :: 0 <= m < |s| ==> s[m].nivel > r[j].nivel
  {
    r[j + 1..FinDesde(r, r[j].nivel, j + 1)]
  }

  /** The nesting of a drawing: no line is more than one level deeper than
      the line before it, and under each line the lines one level deeper are
      exactly the `hijos` of that line's node, in order. */
  predicate Anidado(ps: seq<Puesto>, r: seq<Linea>) {
    && (forall i :: 0 < i < |r| ==> Escalon(r, i))
    && (forall j :: 0 <= j < |r| ==> HijosDebajo(ps, r, j))
  }

  /** Line `i` is at most one level deeper than the line before it. */
  predicate Escalon(r: seq<Linea>, i: nat)
    requires 0 < i < |r|
  {
    r[i].nivel <= r[i - 1].nivel + 1
  }

  /** Under line `j` the lines one level deeper are its node's `hijos`. */
  predicate HijosDebajo(ps: seq<Puesto>, r: seq<Linea>, j: nat)
    requires j < |r|
  {
    IdsEnNivel(Debajo(r, j), r[j].nivel + 1) == HijosDe(ps, r[j].id)
  }

  lemma {:induction false} FinDesdeIzq(a: seq<Linea>, b: seq<Linea>, nivel: nat, e: nat)
    requires e <= |a| && (b == [] || b[0].nivel <= nivel)
    ensures FinDesde(a + b, nivel, e) == FinDesde(a, nivel, e)
    decreases |a| - e
  {
    if e < |a| {
      assert (a + b)[e] == a[e];
      if a[e].nivel > nivel {
        FinDesdeIzq(a, b, nivel, e + 1);
      }
    } else if b != [] {
      assert (a + b)[e] == b[0];
    }
  }

  lemma {:induction false} FinDesdeDer(a: seq<Linea>, b: seq<Linea>, nivel: nat, e: nat)
    requires |a| <= e <= |a| + |b|
    ensures FinDesde(a + b, nivel, e) == |a| + FinDesde(b, nivel, e - |a|)
    decreases |a| + |b| - e
  {
    if e < |a| + |b| {
      assert (a + b)[e] == b[e - |a|];
      if b[e - |a|].nivel > nivel {
        FinDesdeDer(a, b, nivel, e + 1);
      }
    }
  }

  /** Under a line of the first part, when the second part starts no deeper
      than that line. */
  lemma DebajoIzq(a: seq<Linea>, b: seq<Linea>, j: nat)
    requires j < |a| && (b == [] || b[0].nivel <= a[j].nivel)
    ensures Debajo(a + b, j) == Debajo(a, j)
  {
    assert (a + b)[j] == a[j];
    FinDesdeIzq(a, b, a[j].nivel, j + 1);
    var f := FinDesde(a, a[j].nivel, j + 1);
    assert (a + b)[j + 1..f] == a[j + 1..f];
  }

  /** Under a line of the second part. */
  lemma DebajoDer(a: seq<Linea>, b: seq<Linea>, j: nat)
    requires |a| <= j < |a| + |b|
    ensures Debajo(a + b, j) == Debajo(b, j - |a|)
  {
    assert (a + b)[j] == b[j - |a|];
    FinDesdeDer(a, b, b[j - |a|].nivel, j + 1);
    var f := FinDesde(b, b[j - |a|].nivel, j - |a| + 1);
    assert (a + b)[j + 1..|a| + f] == b[j - |a| + 1..f];
  }

  /** Drawings of siblings at depth `nivel`, one after the other. */
  lemma AnidadoConcat(ps: seq<Puesto>, a: seq<Linea>, b: seq<Linea>, nivel: nat)
    requires Anidado(ps, a) && Anidado(ps, b)
    requires forall i :: 0 <= i < |a| ==> a[i].nivel >= nivel
    requires b == [] || b[0].nivel == nivel
    ensures Anidado(ps, a + b)
  {
    EscalonConcat(a, b, nivel);
    HijosDebajoConcat(ps, a, b, nivel);
  }

  lemma EscalonConcat(a: seq<Linea>, b: seq<Linea>, nivel: nat)
    requires (forall i :: 0 < i < |a| ==> Escalon(a, i)) && (forall i :: 0 < i < |b| ==> Escalon(b, i))
    requires forall i :: 0 <= i < |a| ==> a[i].nivel >= nivel
    requires b == [] || b[0].nivel == nivel
    ensures forall i :: 0 < i < |a + b| ==> Escalon(a + b, i)
  {
    var r := a + b;
    forall i | 0 < i < |r| ensures Escalon(r, i) {
      if i < |a| {
        assert Escalon(a, i);
        assert r[i] == a[i] && r[i - 1] == a[i - 1];
      } else if i == |a| {
        assert r[i] == b[0] && r[i - 1] == a[i - 1];
      } else {
        assert Escalon(b, i - |a|);
        assert r[i] == b[i - |a|] && r[i - 1] == b[i - 1 - |a|];
      }
    }
  }

  lemma HijosDebajoConcat(ps: seq<Puesto>, a: seq<Linea>, b: seq<Linea>, nivel: nat)
    requires (forall j :: 0 <= j < |a| ==> HijosDebajo(ps, a, j)) && (forall j :: 0 <= j < |b| ==> HijosDebajo(ps, b, j))
    requires forall i :: 0 <= i < |a| ==> a[i].nivel >= nivel
    requires b == [] || b[0].nivel == nivel
    ensures forall j :: 0 <= j < |a + b| ==> HijosDebajo(ps, a + b, j)
  {
    var r := a + b;
    forall j | 0 <= j < |r| ensures HijosDebajo(ps, r, j) {
      if j < |a| {
        assert HijosDebajo(ps, a, j);
        assert r[j] == a[j];
        DebajoIzq(a, b, j);
      } else {
        assert HijosDebajo(ps, b, j - |a|);
        assert r[j] == b[j - |a|];
        DebajoDer(a, b, j);
      }
    }
  }

  /** A node's line followed by its children's drawings one level deeper. */
  lemma AnidadoCabeza(ps: seq<Puesto>, c: Linea, resto: seq<Linea>)
    requires Anidado(ps, resto)
    requires forall i :: 0 <= i < |resto| ==> resto[i].nivel > c.nivel
    requires resto == [] || resto[0].nivel == c.nivel + 1
    requires IdsEnNivel(resto, c.nivel + 1) == HijosDe(ps, c.id)
    ensures Anidado(ps, [c] + resto)
  {
    EscalonCabeza(c, resto);
    HijosDebajoCabeza(ps, c, resto);
  }

  lemma EscalonCabeza(c: Linea, resto: seq<Linea>)
    requires forall i :: 0 < i < |resto| ==> Escalon(resto, i)
    requires resto == [] || resto[0].nivel == c.nivel + 1
    ensures forall i :: 0 < i < |[c] + resto| ==> Escalon([c] + resto, i)
  {
    var r := [c] + resto;
    forall i | 0 < i < |r| ensures Escalon(r, i) {
      assert r[i] == resto[i - 1];
      if i > 1 {
        assert Escalon(resto, i - 1);
        assert r[i - 1] == resto[i - 2];
      }
    }
  }

  lemma HijosDebajoCabeza(ps: seq<Puesto>, c: Linea, resto: seq<Linea>)
    requires forall j :: 0 <= j < |resto| ==> HijosDebajo(ps, resto, j)
    requires forall i :: 0 <= i < |resto| ==> resto[i].nivel > c.nivel
    requires IdsEnNivel(resto, c.nivel + 1) == HijosDe(ps, c.id)
    ensures forall j :: 0 <= j < |[c] + resto| ==> HijosDebajo(ps, [c] + resto, j)
  {
    var r := [c] + resto;
    forall j | 0 <= j < |r| ensures HijosDebajo(ps, r, j) {
      if j == 0 {
        FinDesdeDer([c], resto, c.nivel, 1);
        assert Debajo(r, 0) == resto;
      } else {
        assert HijosDebajo(ps, resto, j - 1);
        assert r[j] == resto[j - 1];
        DebajoDer([c], resto, j);
      }
    }
  }

  /** A node's drawing followed by its later siblings' drawings. */
  lemma FormaHermanos(primero: seq<Linea>, resto: seq<Linea>, nivel: nat)
    requires |primero| >= 1 && primero[0].nivel == nivel
    requires forall i :: 1 <= i < |primero| ==> primero[i].nivel > nivel
    requires forall i :: 0 <= i < |resto| ==> resto[i].nivel >= nivel
    ensures (primero + resto)[0] == primero[0]
    ensures forall i :: 0 <= i < |primero + resto| ==> (primero + resto)[i].nivel >= nivel
    ensures IdsEnNivel(primero + resto, nivel) == [primero[0].id] + IdsEnNivel(resto, nivel)
  {
    IdsEnNivelConcat(primero, resto, nivel);
    IdsEnNivelArbol(primero, nivel);
    forall i | 0 <= i < |primero + resto| ensures (primero + resto)[i].nivel >= nivel {
      if i >= |primero| {
        assert (primero + resto)[i] == resto[i - |primero|];
      }
    }
  }

  /** `renderNodo(nodo, nivel)` (lines 25-45) for the node with id `k`, where
      `camino` lists the ancestors the recursion came through. The node's own
      line comes first, then each child's drawing at `nivel + 1`, in `hijos`
      order. When no path repeats a node the recursion ends: the path grows
      by one node per level. */
  function RenderNodo(ps: seq<Puesto>, k: int, nivel: nat, camino: seq<int>): (r: seq<Linea>)
    requires SinCiclos(ps) && CaminoValido(ps, camino + [k]) && nivel == |camino|
    ensures |r| >= 1 && r[0].id == k && r[0].nivel == nivel
    ensures forall i :: 1 <= i < |r| ==> r[i].nivel > nivel
    ensures IdsEnNivel(r, nivel + 1) == HijosDe(ps, k)
    decreases |Ids(ps)| - |camino|, 0, 0
  {
    CaminoAcotado(ps, camino + [k]);
    CaminoHijos(ps, camino, k);
    var hs := HijosDe(ps, k);
    var cabeza := Linea(k, nivel, EstiloDe(nivel), Etiqueta(Ultimo(ps, k)));
    var resto := RenderHijos(ps, hs, nivel + 1, camino + [k]);
    IdsEnNivelConcat([cabeza], resto, nivel + 1);
    assert forall i :: 1 <= i < |[cabeza] + resto| ==> ([cabeza] + resto)[i] == resto[i - 1];
    [cabeza] + resto
  }

  /** `nodo.hijos.map((hijo) => renderNodo(hijo, nivel))` for the ids `hs`,
      each of which extends `camino` to a path down the forest. Every line is
      at depth `nivel` or deeper, and the lines at depth `nivel` are exactly
      `hs`, in order, the first line being the first of them. */
  function RenderHijos(ps: seq<Puesto>, hs: seq<int>, nivel: nat, camino: seq<int>): (r: seq<Linea>)
    requires SinCiclos(ps) && nivel == |camino|
    requires forall i :: 0 <= i < |hs| ==> CaminoValido(ps, camino + [hs[i]])
    ensures r == [] <==> hs == []
    ensures r != [] ==> r[0].id == hs[0] && r[0].nivel == nivel
    ensures forall i :: 0 <= i < |r| ==> r[i].nivel >= nivel
    ensures IdsEnNivel(r, nivel) == hs
    decreases |Ids(ps)| - |camino|, 1, |hs|
  {
    if hs == [] then []
    else
      CaminoAcotado(ps, camino + [hs[0]]);
      var primero := RenderNodo(ps, hs[0], nivel, camino);
      assert forall i :: 0 <= i < |hs| - 1 ==> hs[1..][i] == hs[i + 1];
      var resto := RenderHijos(ps, hs[1..], nivel, camino);
      assert hs == [hs[0]] + hs[1..];
      FormaHermanos(primero, resto, nivel);
      primero + resto
  }

  lemma DibujadoBaja(ps: seq<Puesto>, r: seq<Linea>, nivel: nat)
    requires Dibujado(ps, r, nivel + 1)
    ensures Dibujado(ps, r, nivel)
  {
    forall i | 0 <= i < |r| ensures LineaDibujada(ps, r[i], nivel) {
      assert LineaDibujada(ps, r[i], nivel + 1);
    }
  }

  /** Every line of a node's drawing has the style of its depth, shows the
      text of its node's record (lines 26-37) and draws a node reachable from
      `raiz`. */
  lemma {:induction false} NodoDibujado(ps: seq<Puesto>, k: int, nivel: nat, camino: seq<int>)
    requires SinCiclos(ps) && CaminoValido(ps, camino + [k]) && nivel == |camino|
    ensures Dibujado(ps, RenderNodo(ps, k, nivel, camino), nivel)
    decreases |Ids(ps)| - |camino|, 0, 0
  {
    CaminoAcotado(ps, camino + [k]);
    CaminoHijos(ps, camino, k);
    var hs := HijosDe(ps, k);
    var cabeza := Linea(k, nivel, EstiloDe(nivel), Etiqueta(Ultimo(ps, k)));
    var resto := RenderHijos(ps, hs, nivel + 1, camino + [k]);
    HijosDibujados(ps, hs, nivel + 1, camino + [k]);
    DibujadoBaja(ps, resto, nivel);
    CabezaDibujada(ps, camino, k);
    RenderNodoEs(ps, k, nivel, camino);
    DibujadoConcat(ps, [cabeza], resto, nivel);
  }

  /** One unfolding of `RenderNodo`. */
  lemma RenderNodoEs(ps: seq<Puesto>, k: int, nivel: nat, camino: seq<int>)
    requires SinCiclos(ps) && CaminoValido(ps, camino + [k]) && nivel == |camino| && k in Ids(ps)
    requires forall i :: 0 <= i < |HijosDe(ps, k)| ==> CaminoValido(ps, camino + [k] + [HijosDe(ps, k)[i]])
    ensures RenderNodo(ps, k, nivel, camino) ==
              [Linea(k, nivel, EstiloDe(nivel), Etiqueta(Ultimo(ps, k)))] + RenderHijos(ps, HijosDe(ps, k), nivel + 1, camino + [k])
  {
  }

  /** The line of the node at the end of a path. */
  lemma CabezaDibujada(ps: seq<Puesto>, camino: seq<int>, k: int)
    requires CaminoValido(ps, camino + [k])
    ensures k in Ids(ps)
    ensures Dibujado(ps, [Linea(k, |camino|, EstiloDe(|camino|), Etiqueta(Ultimo(ps, k)))], |camino|)
  {
    CaminoHijos(ps, camino, k);
    var l := Linea(k, |camino|, EstiloDe(|camino|), Etiqueta(Ultimo(ps, k)));
    assert LineaDibujada(ps, l, |camino|);
  }

  /** The same for the drawings of siblings, one after the other. */
  lemma {:induction false} HijosDibujados(ps: seq<Puesto>, hs: seq<int>, nivel: nat, camino: seq<int>)
    requires SinCiclos(ps) && nivel == |camino|
    requires forall i :: 0 <= i < |hs| ==> CaminoValido(ps, camino + [hs[i]])
    ensures Dibujado(ps, RenderHijos(ps, hs, nivel, camino), nivel)
    decreases |Ids(ps)| - |camino|, 1, |hs|
  {
    if hs != [] {
      CaminoAcotado(ps, camino + [hs[0]]);
      var primero := RenderNodo(ps, hs[0], nivel, camino);
      var resto := RenderHijos(ps, hs[1..], nivel, camino);
      NodoDibujado(ps, hs[0], nivel, camino);
      HijosDibujados(ps, hs[1..], nivel, camino);
      DibujadoConcat(ps, primero, resto, nivel);
    }
  }

  /** The drawing of a node nests each child's subtree under the child's
      line, one level deeper (the `<ul>` of lines 39-43). */
  lemma {:induction false} NodoAnidado(ps: seq<Puesto>, k: int, nivel: nat, camino: seq<int>)
    requires SinCiclos(ps) && CaminoValido(ps, camino + [k]) && nivel == |camino|
    ensures Anidado(ps, RenderNodo(ps, k, nivel, camino))
    decreases |Ids(ps)| - |camino|, 0, 0
  {
    CaminoAcotado(ps, camino + [k]);
    CaminoHijos(ps, camino, k);
    HijosAnidados(ps, HijosDe(ps, k), nivel + 1, camino + [k]);
    CabezaSobreHijos(ps, k, nivel, camino);
    RenderNodoEs(ps, k, nivel, camino);
  }

  /** A node's own line on top of its children's nested drawing is nested. */
  lemma CabezaSobreHijos(ps: seq<Puesto>, k: int, nivel: nat, camino: seq<int>)
    requires SinCiclos(ps) && CaminoValido(ps, camino + [k]) && nivel == |camino| && k in Ids(ps)
    requires forall i :: 0 <= i < |HijosDe(ps, k)| ==> CaminoValido(ps, camino + [k] + [HijosDe(ps, k)[i]])
    requires Anidado(ps, RenderHijos(ps, HijosDe(ps, k), nivel + 1, camino + [k]))
    ensures Anidado(ps, [Linea(k, nivel, EstiloDe(nivel), Etiqueta(Ultimo(ps, k)))] +
                        RenderHijos(ps, HijosDe(ps, k), nivel + 1, camino + [k]))
  {
    var resto := RenderHijos(ps, HijosDe(ps, k), nivel + 1, camino + [k]);
    AnidadoCabeza(ps, Linea(k, nivel, EstiloDe(nivel), Etiqueta(Ultimo(ps, k))), resto);
  }

  /** Drawing siblings one after the other keeps each one's nesting. */
  lemma {:induction false} HijosAnidados(ps: seq<Puesto>, hs: seq<int>, nivel: nat, camino: seq<int>)
    requires SinCiclos(ps) && nivel == |camino|
    requires forall i :: 0 <= i < |hs| ==> CaminoValido(ps, camino + [hs[i]])
    ensures Anidado(ps, RenderHijos(ps, hs, nivel, camino))
    decreases |Ids(ps)| - |camino|, 1, |hs|
  {
    if hs != [] {
      CaminoAcotado(ps, camino + [hs[0]]);
      var primero := RenderNodo(ps, hs[0], nivel, camino);
      var resto := RenderHijos(ps, hs[1..], nivel, camino);
      NodoAnidado(ps, hs[0], nivel, camino);
      HijosAnidados(ps, hs[1..], nivel, camino);
      AnidadoConcat(ps, primero, resto, nivel);
    }
  }

  /** In a nested drawing whose top-level lines are `raiz`, the end of every
      path down the forest is drawn. */
  lemma {:induction false} CaminoDibujado(ps: seq<Puesto>, r: seq<Linea>, c: seq<int>)
    requires Anidado(ps, r) && IdsEnNivel(r, 0) == Raices(ps) && CaminoValido(ps, c)
    ensures exists i :: 0 <= i < |r| && r[i].id == c[|c| - 1]
    decreases |c|
  {
    var n := |c| - 1;
    if n == 0 {
      IdsEnNivelMiembro(r, 0, c[0]);
    } else {
      CaminoPrefijo(ps, c, n);
      CaminoDibujado(ps, r, c[..n]);
      var j :| 0 <= j < |r| && r[j].id == c[..n][n - 1];
      var s := Debajo(r, j);
      assert HijosDebajo(ps, r, j);
      assert c[n] in IdsEnNivel(s, r[j].nivel + 1);
      IdsEnNivelMiembro(s, r[j].nivel + 1, c[n]);
      var m :| 0 <= m < |s| && s[m].id == c[n] && s[m].nivel == r[j].nivel + 1;
      assert r[j + 1 + m] == s[m];
    }
  }

  /** What the page shows (lines 47-58). */
  datatype Vista = SinPuestos | Arbol(lineas: seq<Linea>)

  const MensajeSinPuestos := "No hay puestos para mostrar en el organigrama."

  /** The page body: the no-data message for an empty list, otherwise every
      root drawn from depth 0, in `raiz` order, with the subtree of each node
      nested under it. Exactly the nodes reachable from `raiz` are drawn. */
  function Pagina(ps: seq<Puesto>): (v: Vista)
    requires SinCiclos(ps)
    ensures v.SinPuestos? <==> ps == []
    ensures v.Arbol? ==> IdsEnNivel(v.lineas, 0) == Raices(ps) && Anidado(ps, v.lineas)
    ensures v.Arbol? && v.lineas != [] ==> v.lineas[0].nivel == 0
    ensures v.Arbol? ==> forall i :: 0 <= i < |v.lineas| ==>
              && v.lineas[i].estilo == EstiloDe(v.lineas[i].nivel)
              && v.lineas[i].id in Ids(ps) && v.lineas[i].etiqueta == Etiqueta(Ultimo(ps, v.lineas[i].id))
    ensures v.Arbol? ==> forall x :: Alcanzable(ps, x) <==> exists i :: 0 <= i < |v.lineas| && v.lineas[i].id == x
  {
    if |ps| == 0 then SinPuestos
    else
      var rs := Raices(ps);
      forall i | 0 <= i < |rs| ensures CaminoValido(ps, [] + [rs[i]]) {
        assert [] + [rs[i]] == [rs[i]];
      }
      var ls := RenderHijos(ps, rs, 0, []);
      HijosAnidados(ps, rs, 0, []);
      HijosDibujados(ps, rs, 0, []);
      forall x | Alcanzable(ps, x) ensures exists i :: 0 <= i < |ls| && ls[i].id == x {
        var c :| CaminoValido(ps, c) && c[|c| - 1] == x;
        CaminoDibujado(ps, ls, c);
      }
      Arbol(ls)
  }

  /** A path is a single root, or its second node is a child of the root. */
  lemma PrimerPaso(ps: seq<Puesto>, c: seq<int>)
    requires CaminoValido(ps, c)
    ensures |c| == 1 || c[1] in HijosDe(ps, c[0])
  {
  }

  /** With unique ids the chart is drawn, and no position on a boss cycle
      appears in it. */
  lemma CicloNoSeDibuja(ps: seq<Puesto>, s: set<int>)
    requires IdsUnicos(ps) && Cerrado(ps, s) && ps != []
    ensures SinCiclos(ps)
    ensures forall i :: 0 <= i < |Pagina(ps).lineas| ==> Pagina(ps).lineas[i].id !in s
  {
    UnicosSinCiclos(ps);
    var ls := Pagina(ps).lineas;
    forall i | 0 <= i < |ls| ensures ls[i].id !in s {
      assert Alcanzable(ps, ls[i].id);
      var c :| CaminoValido(ps, c) && c[|c| - 1] == ls[i].id;
      CerradoInalcanzable(ps, s, c);
    }
  }

  /** With a repeated id the forest can hold a node that is its own child:
      the first record makes node 1 a root, the second (which wins in `mapa`)
      makes node 1 a child of itself, so paths from `raiz` have every length
      and `renderNodo` would never return. */
  lemma DuplicadoSeReferencia(n: nat)
    ensures var ps := [Puesto(1, "A", None, None), Puesto(1, "B", None, Some(1))];
            Raices(ps) == [1] && HijosDe(ps, 1) == [1] && CaminoValido(ps, seq(n + 1, _ => 1)) && !SinCiclos(ps)
  {
    var ps := [Puesto(1, "A", None, None), Puesto(1, "B", None, Some(1))];
    DuplicadoBosque();
    assert CaminoValido(ps, [1, 1]) && [1, 1][0] == [1, 1][1];
    assert !Distintos([1, 1]);
  }

  /** The forest of that list: one root, node 1, which is its own child. */
  lemma DuplicadoBosque()
    ensures var ps := [Puesto(1, "A", None, None), Puesto(1, "B", None, Some(1))];
            Raices(ps) == [1] && HijosDe(ps, 1) == [1]
  {
    var ps := [Puesto(1, "A", None, None), Puesto(1, "B", None, Some(1))];
    assert Ids(ps) == {1} by {
      assert ps[0].id == 1;
    }
    assert ps[..1] == [ps[0]];
    assert ps[..1][..0] == [];
    assert DestinoDe(ps[0], {1}) == ARaiz;
    assert DestinoDe(ps[1], {1}) == AHijosDe(1);
    assert Colocados(ps[..1], {1}, ARaiz) == [1];
    assert Colocados(ps[..1], {1}, AHijosDe(1)) == [];
  }

  /** A repeated id does not by itself stop the page: two roots with id 1
      both show the record that wins in `mapa`, with no children. */
  lemma DuplicadoSinCiclo()
    ensures var ps := [Puesto(1, "A", None, None), Puesto(1, "B", None, None)];
            !IdsUnicos(ps) && SinCiclos(ps) &&
            Pagina(ps) == Arbol([Linea(1, 0, Azul, "B"), Linea(1, 0, Azul, "B")])
  {
    var ps := [Puesto(1, "A", None, None), Puesto(1, "B", None, None)];
    DosRaices();
    DosRaicesDibujo();
    assert ps[0].id == ps[1].id;
  }

  /** The forest of that list: node 1 twice as a root, built from the second
      record, with no children. */
  lemma DosRaices()
    ensures var ps := [Puesto(1, "A", None, None), Puesto(1, "B", None, None)];
            Ids(ps) == {1} && Raices(ps) == [1, 1] && HijosDe(ps, 1) == [] && Ultimo(ps, 1) == ps[1]
  {
    var ps := [Puesto(1, "A", None, None), Puesto(1, "B", None, None)];
    assert Ids(ps) == {1} by {
      assert ps[0].id == 1;
    }
    assert ps[..1] == [ps[0]];
    assert ps[..1][..0] == [];
    assert DestinoDe(ps[0], {1}) == ARaiz && DestinoDe(ps[1], {1}) == ARaiz;
    assert Colocados(ps[..1], {1}, ARaiz) == [1];
    assert Colocados(ps[..1], {1}, AHijosDe(1)) == [];
  }

  /** Each of its roots is drawn as one line. */
  lemma DosRaicesDibujo()
    ensures var ps := [Puesto(1, "A", None, None), Puesto(1, "B", None, None)];
            SinCiclos(ps) && RenderHijos(ps, [1, 1], 0, []) == [Linea(1, 0, Azul, "B"), Linea(1, 0, Azul, "B")]
  {
    var ps := [Puesto(1, "A", None, None), Puesto(1, "B", None, None)];
    DosRaices();
    DosRaicesSinCiclos();
    var l := Linea(1, 0, Azul, "B");
    assert [] + [1] == [1];
    assert RenderNodo(ps, 1, 0, []) == [l] by {
      assert CaminoValido(ps, [1]);
      RenderNodoEs(ps, 1, 0, []);
      assert RenderHijos(ps, [], 1, [1]) == [];
      assert Etiqueta(ps[1]) == "B";
    }
    assert RenderHijos(ps, [1], 0, []) == [l] by {
      assert [1][1..] == [];
    }
    assert [1, 1][1..] == [1];
  }

  /** Its paths are single roots. */
  lemma DosRaicesSinCiclos()
    ensures SinCiclos([Puesto(1, "A", None, None), Puesto(1, "B", None, None)])
  {
    var ps := [Puesto(1, "A", None, None), Puesto(1, "B", None, None)];
    DosRaices();
    forall c | CaminoValido(ps, c) ensures Distintos(c) {
      PrimerPaso(ps, c);
      assert c[0] == 1 && HijosDe(ps, c[0]) == [];
    }
  }
}
