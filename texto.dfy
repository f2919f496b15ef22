/** The string operations the pages rely on: `toLowerCase` (ASCII letters
    only), `includes`, the comparison of two `yyyy-mm-dd` dates, and the
    conversions between integers and their decimal text (`String(n)` and
    `parseInt`). */
module Texto {
  import opened Comun

  function Minuscula(c: char): char {
    if 'A' <= c <= 'Z' then (c as int + 32) as char else c
  }

  /** `s.toLowerCase()`, restricted to the ASCII letters. */
  function Minusculas(s: string): (r: string)
    ensures |r| == |s| && forall i :: 0 <= i < |s| ==> r[i] == Minuscula(s[i])
  {
    seq(|s|, i requires 0 <= i < |s| => Minuscula(s[i]))
  }

  /** `s.includes(t)`. */
  function Incluye(s: string, t: string): bool
    decreases |s|
  {
    if |t| > |s| then false
    else if s[..|t|] == t then true
    else Incluye(s[1..], t)
  }

  /** `t` occurs in `s` starting at index `i`. */
  predicate ApareceEn(s: string, t: string, i: int) {
    0 <= i <= |s| - |t| && s[i..i + |t|] == t
  }

  /** `includes` holds exactly when `t` occurs in `s` at some position. */
  lemma {:induction false} IncluyeSiAparece(s: string, t: string)
    ensures Incluye(s, t) <==> exists i :: ApareceEn(s, t, i)
    decreases |s|
  {
    if |t| <= |s| && s[..|t|] != t {
      IncluyeSiAparece(s[1..], t);
      if Incluye(s, t) {
        var i :| ApareceEn(s[1..], t, i);
        assert ApareceEn(s, t, i + 1);
      } else if exists i :: ApareceEn(s, t, i) {
        var i :| ApareceEn(s, t, i);
        assert i != 0;
        assert ApareceEn(s[1..], t, i - 1);
      }
    } else if |t| <= |s| {
      assert ApareceEn(s, t, 0);
    }
  }

  /** The empty text is included in every text. */
  lemma IncluyeVacio(s: string)
    ensures Incluye(s, "")
  {
    assert s[..0] == "";
  }

  /** `s.toLowerCase().includes(t.toLowerCase())`: case-insensitive search. */
  predicate CoincideSinMayus(s: string, t: string) {
    Incluye(Minusculas(s), Minusculas(t))
  }

  lemma CoincideVacio(s: string)
    ensures CoincideSinMayus(s, "")
  {
    assert Minusculas("") == "";
    IncluyeVacio(Minusculas(s));
  }

  /** `new Date(a) > new Date(b)` for two dates written `yyyy-mm-dd`, as the
      date inputs produce them; for such texts the chronological order is the
      lexicographic order of the characters. */
  predicate Posterior(a: string, b: string) {
    if a == [] then false
    else if b == [] then true
    else if a[0] != b[0] then a[0] > b[0]
    else Posterior(a[1..], b[1..])
  }

  /** No date is after itself, and of two dates at most one is after the other. */
  lemma {:induction false} PosteriorAsimetrico(a: string, b: string)
    ensures !Posterior(a, a)
    ensures Posterior(a, b) ==> !Posterior(b, a)
  {
    if a != [] {
      PosteriorAsimetrico(a[1..], a[1..]);
      if b != [] {
        PosteriorAsimetrico(a[1..], b[1..]);
      }
    }
  }

  predicate EsDigito(c: char) {
    '0' <= c <= '9'
  }

  function DigitoDe(d: nat): (c: char)
    requires d < 10
    ensures EsDigito(c)
  {
    ('0' as int + d) as char
  }

  function ValorDigito(c: char): nat
    requires EsDigito(c)
  {
    c as int - '0' as int
  }

  /** The decimal digits of `n`, without leading zeros. */
  function Digitos(n: nat): (s: string)
    ensures |s| >= 1 && forall i :: 0 <= i < |s| ==> EsDigito(s[i])
  {
    if n < 10 then [DigitoDe(n)] else Digitos(n / 10) + [DigitoDe(n % 10)]
  }

  /** `String(n)` for an integer. */
  function MostrarEntero(n: int): string {
    if n < 0 then "-" + Digitos(-n) else Digitos(n)
  }

  /** The value of a run of decimal digits. */
  function ValorDigitos(s: string): nat
    requires forall i :: 0 <= i < |s| ==> EsDigito(s[i])
  {
    if s == [] then 0 else 10 * ValorDigitos(s[..|s| - 1]) + ValorDigito(s[|s| - 1])
  }

  /** The longest prefix of `s` made of decimal digits. */
  function PrefijoDigitos(s: string): (p: string)
    ensures |p| <= |s| && p == s[..|p|]
    ensures forall i :: 0 <= i < |p| ==> EsDigito(p[i])
    ensures |p| < |s| ==> !EsDigito(s[|p|])
  {
    if s == [] || !EsDigito(s[0]) then [] else [s[0]] + PrefijoDigitos(s[1..])
  }

  /** `parseInt(s)`: an optional sign, then as many decimal digits as there
      are; `NaN` when there is no digit. */
  function ParseInt(s: string): Entero {
    var negativo := |s| > 0 && s[0] == '-';
    var resto := if |s| > 0 && (s[0] == '-' || s[0] == '+') then s[1..] else s;
    var ds := PrefijoDigitos(resto);
    if ds == [] then NaN
    else if negativo then Num(-(ValorDigitos(ds) as int))
    else Num(ValorDigitos(ds))
  }

  /** `parseInt(v)` converts `v` to text first. */
  function ParseIntValor(v: Valor): Entero {
    match v
    case Cadena(s) => ParseInt(s)
    case Numero(n) => ParseInt(MostrarEntero(n))
    case Nulo => ParseInt("null")
    case Indefinido => ParseInt("undefined")
    case Archivo(_) => ParseInt("[object File]")
  }

  lemma {:induction false} ValorDeDigitos(n: nat)
    ensures ValorDigitos(Digitos(n)) == n
  {
    if n >= 10 {
      var s := Digitos(n);
      assert s[..|s| - 1] == Digitos(n / 10);
      ValorDeDigitos(n / 10);
    }
  }

  lemma {:induction false} PrefijoDeDigitos(s: string)
    requires forall i :: 0 <= i < |s| ==> EsDigito(s[i])
    ensures PrefijoDigitos(s) == s
  {
    if s != [] {
      PrefijoDeDigitos(s[1..]);
    }
  }

  /** `parseInt(String(n)) == n` for every integer `n`. */
  lemma ParseIntMostrar(n: int)
    ensures ParseInt(MostrarEntero(n)) == Num(n)
  {
    var m := if n < 0 then -n else n;
    var s, ds := MostrarEntero(n), Digitos(m);
    ValorDeDigitos(m);
    PrefijoDeDigitos(ds);
    if n < 0 {
      assert s == "-" + ds;
      assert s[0] == '-' && s[1..] == ds;
      assert ParseInt(s) == Num(-(ValorDigitos(ds) as int));
    } else {
      assert s == ds && EsDigito(s[0]);
      assert ParseInt(s) == Num(ValorDigitos(ds));
    }
  }
}
