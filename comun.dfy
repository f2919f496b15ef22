/** Vocabulary shared by every page: the JavaScript values a form field can hold,
    the results the entity stores hand back, and the list operations the pages
    build on (`Array.prototype.filter`, `find`, `map`, de-duplication through a
    `Set`, and sums for the dashboard). */
module Comun {

  datatype Option<+T> = None | Some(value: T)

  /** What `parseInt` returns: an integer or `NaN`. */
  datatype Entero = Num(n: int) | NaN

  /** A JavaScript value held in a form field: text typed or picked in an
      input, a number copied from a record, `null`, `undefined`, or a `File`
      chosen in a file input (identified by its name). */
  datatype Valor = Cadena(s: string) | Numero(n: int) | Nulo | Indefinido | Archivo(nombre: string)

  /** The message a handler shows (`toast.success` / `toast.error`). */
  datatype Aviso = Exito(texto: string) | Error(texto: string)

  /** What the stores' `editarX(id, datos)` resolve to: `{ success, error }`. */
  datatype Resultado = Resultado(success: bool, error: string)

  /** JavaScript truthiness of a nullable string field. */
  predicate Presente(o: Option<string>) {
    o.Some? && o.value != ""
  }

  /** `x || ''` for a nullable string field. */
  function OrVacio(o: Option<string>): (r: string)
    ensures Presente(o) ==> r == o.value
    ensures !Presente(o) ==> r == ""
  {
    if o.Some? then o.value else ""
  }

  /** JavaScript truthiness of a form value; a `File` object is always truthy. */
  predicate Verdadero(v: Valor) {
    match v
    case Cadena(s) => s != ""
    case Numero(n) => n != 0
    case Nulo => false
    case Indefinido => false
    case Archivo(_) => true
  }

  /** `Array.prototype.filter`. */
  function Filter<T>(s: seq<T>, f: T -> bool): (r: seq<T>)
    ensures |r| <= |s|
    ensures forall i :: 0 <= i < |r| ==> r[i] in s && f(r[i])
    ensures forall i :: 0 <= i < |s| && f(s[i]) ==> s[i] in r
  {
    if s == [] then [] else (if f(s[0]) then [s[0]] else []) + Filter(s[1..], f)
  }

  /** The filter of a three-element list keeps each element that passes,
      in order. */
  lemma FilterTres<T>(x: T, y: T, z: T, f: T -> bool)
    ensures Filter([x, y, z], f) ==
              (if f(x) then [x] else []) + (if f(y) then [y] else []) + (if f(z) then [z] else [])
  {
    var s := [x, y, z];
    assert s[1..] == [y, z] && [y, z][1..] == [z] && [z][1..] == [];
    assert Filter([z], f) == (if f(z) then [z] else []);
    assert Filter([y, z], f) == (if f(y) then [y] else []) + Filter([z], f);
    assert Filter(s, f) == (if f(x) then [x] else []) + Filter([y, z], f);
  }

  /** Filtering a concatenation filters each part and keeps them in order:
      together with `Filter([x], f) == if f(x) then [x] else []` this says
      that a filter keeps the surviving elements in their original order. */
  lemma {:induction false} FilterConcat<T>(a: seq<T>, b: seq<T>, f: T -> bool)
    ensures Filter(a + b, f) == Filter(a, f) + Filter(b, f)
  {
    if a == [] {
      assert a + b == b;
    } else {
      assert (a + b)[0] == a[0];
      assert (a + b)[1..] == a[1..] + b;
      FilterConcat(a[1..], b, f);
    }
  }

  /** A filter whose condition holds everywhere keeps the whole list. */
  lemma {:induction false} FilterTodos<T>(s: seq<T>, f: T -> bool)
    requires forall i :: 0 <= i < |s| ==> f(s[i])
    ensures Filter(s, f) == s
  {
    if s != [] {
      FilterTodos(s[1..], f);
    }
  }

  /** Two conditions that never hold together select at most |s| elements in all. */
  lemma {:induction false} FilterDisjuntos<T>(s: seq<T>, f: T -> bool, g: T -> bool)
    requires forall i :: 0 <= i < |s| ==> !(f(s[i]) && g(s[i]))
    ensures |Filter(s, f)| + |Filter(s, g)| <= |s|
  {
    if s != [] {
      FilterDisjuntos(s[1..], f, g);
    }
  }

  /** `Array.prototype.find`: the first element satisfying `f`, if any. */
  function Find<T>(s: seq<T>, f: T -> bool): (r: Option<T>)
    ensures r.None? <==> forall i :: 0 <= i < |s| ==> !f(s[i])
    ensures r.Some? ==> exists i :: 0 <= i < |s| && s[i] == r.value && f(s[i]) &&
                                    forall j :: 0 <= j < i ==> !f(s[j])
  {
    if s == [] then None
    else if f(s[0]) then Some(s[0])
    else
      var r := Find(s[1..], f);
      assert r.Some? ==> exists i :: 0 <= i < |s| - 1 && s[1..][i] == r.value && f(s[1..][i]) &&
                                     forall j :: 0 <= j < i ==> !f(s[1..][j]);
      assert forall i :: 0 <= i < |s| - 1 ==> s[1..][i] == s[i + 1];
      r
  }

  /** `Array.prototype.map`. */
  function Map<T, U>(s: seq<T>, f: T -> U): (r: seq<U>)
    ensures |r| == |s| && forall i :: 0 <= i < |s| ==> r[i] == f(s[i])
  {
    seq(|s|, i requires 0 <= i < |s| => f(s[i]))
  }

  predicate Distintos<T(==)>(s: seq<T>) {
    forall i, j :: 0 <= i < j < |s| ==> s[i] != s[j]
  }

  /** Index of the first occurrence of `x` in `s`. */
  function Primera<T(==)>(s: seq<T>, x: T): (k: nat)
    requires x in s
    ensures k < |s| && s[k] == x && forall j :: 0 <= j < k ==> s[j] != x
  {
    if s[0] == x then 0 else 1 + Primera(s[1..], x)
  }

  /** `[...new Set(s)]`: each element once, where it first occurs. */
  function Dedup<T(==)>(s: seq<T>): (r: seq<T>)
    ensures forall i :: 0 <= i < |r| ==> r[i] in s
    ensures forall i :: 0 <= i < |s| ==> s[i] in r
    ensures Distintos(r)
  {
    if s == [] then []
    else
      var d := Dedup(s[..|s| - 1]);
      assert forall i :: 0 <= i < |s| - 1 ==> s[..|s| - 1][i] == s[i];
      if s[|s| - 1] in d then d else d + [s[|s| - 1]]
  }

  lemma PrimeraPrefijo<T>(s: seq<T>, x: T)
    requires s != [] && x in s[..|s| - 1]
    ensures Primera(s, x) == Primera(s[..|s| - 1], x)
  {
    var p := s[..|s| - 1];
    var k, m := Primera(p, x), Primera(s, x);
    assert s[k] == p[k] == x;
    assert m <= k;
    assert p[m] == s[m] == x;
  }

  /** The distinct elements come out in the order of their first occurrence. */
  lemma {:induction false} DedupOrdenPrimera<T>(s: seq<T>)
    ensures forall i, j :: 0 <= i < j < |Dedup(s)| ==>
              Primera(s, Dedup(s)[i]) < Primera(s, Dedup(s)[j])
  {
    if s != [] {
      var p := s[..|s| - 1];
      var x := s[|s| - 1];
      var d := Dedup(p);
      DedupOrdenPrimera(p);
      forall y | y in d ensures Primera(s, y) == Primera(p, y) && Primera(s, y) < |s| - 1 {
        PrimeraPrefijo(s, y);
      }
      if x !in d {
        assert x !in p;
        assert Primera(s, x) == |s| - 1;
        assert Dedup(s) == d + [x];
      }
    }
  }

  function Suma(s: seq<nat>): nat {
    if s == [] then 0 else Suma(s[..|s| - 1]) + s[|s| - 1]
  }

  lemma {:induction false} SumaConcat(a: seq<nat>, b: seq<nat>)
    ensures Suma(a + b) == Suma(a) + Suma(b)
  {
    if b != [] {
      assert (a + b)[..|a + b| - 1] == a + b[..|b| - 1];
      SumaConcat(a, b[..|b| - 1]);
    } else {
      assert a + b == a;
    }
  }

  /** Adding one to a single entry adds one to the sum. */
  lemma {:induction false} SumaIncremento(s: seq<nat>, k: nat)
    requires k < |s|
    ensures Suma(s[k := s[k] + 1]) == Suma(s) + 1
  {
    var t := s[k := s[k] + 1];
    if k == |s| - 1 {
      assert t[..|t| - 1] == s[..|s| - 1];
    } else {
      assert t[..|t| - 1] == s[..|s| - 1][k := s[k] + 1];
      SumaIncremento(s[..|s| - 1], k);
    }
  }

  /** `Math.max` of a list, 0 for the empty list. */
  function Maximo(s: seq<nat>): (m: nat)
    ensures forall i :: 0 <= i < |s| ==> s[i] <= m
    ensures s == [] ==> m == 0
    ensures s != [] ==> m in s
  {
    if s == [] then 0
    else
      var m := Maximo(s[..|s| - 1]);
      assert forall i :: 0 <= i < |s| - 1 ==> s[..|s| - 1][i] == s[i];
      if s[|s| - 1] > m then s[|s| - 1] else m
  }
}
