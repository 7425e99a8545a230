/**
  The string primitives the search boxes and the category list rely on:
  `String.prototype.trim`, `toLowerCase`, `includes`, the decimal form of an
  integer in a template literal, and the default `Array.prototype.sort` order
  on strings.
*/
module Texto {

  /** The characters `trim` removes: ECMAScript's WhiteSpace and LineTerminator. */
  predicate EsEspacio(c: char)
  {
    c == '\t' || c == '\n' || c == '\U{0B}' || c == '\U{0C}' || c == '\r' || c == ' '
    || c == '\U{A0}' || c == '\U{1680}' || ('\U{2000}' <= c <= '\U{200A}')
    || c == '\U{2028}' || c == '\U{2029}' || c == '\U{202F}' || c == '\U{205F}'
    || c == '\U{3000}' || c == '\U{FEFF}'
  }

  /** The input without its leading white space. */
  function QuitarInicio(s: string): (r: string)
    ensures |r| <= |s| && r == s[|s| - |r|..]
    ensures forall k :: 0 <= k < |s| - |r| ==> EsEspacio(s[k])
    ensures r == [] || !EsEspacio(r[0])
  {
    if s != [] && EsEspacio(s[0]) then QuitarInicio(s[1..]) else s
  }

  /** The input without its trailing white space. */
  function QuitarFinal(s: string): (r: string)
    ensures |r| <= |s| && r == s[..|r|]
    ensures forall k :: |r| <= k < |s| ==> EsEspacio(s[k])
    ensures r == [] || !EsEspacio(r[|r| - 1])
  {
    if s != [] && EsEspacio(s[|s| - 1]) then QuitarFinal(s[..|s| - 1]) else s
  }

  /** `s.trim()`. */
  function Recortar(s: string): string
  {
    QuitarFinal(QuitarInicio(s))
  }

  /**
    `toLowerCase` on one UTF-16 unit, for the ASCII and Latin-1 letters
    (A-Z and U+00C0..U+00DE except U+00D7); every other character is left as it is.
  */
  function MinusculaChar(c: char): char
  {
    if 'A' <= c <= 'Z' || ('\U{C0}' <= c <= '\U{DE}' && c != '\U{D7}')
    then (c as int + 32) as char
    else c
  }

  /** `s.toLowerCase()`, character by character. */
  function Minusculas(s: string): (r: string)
    ensures |r| == |s|
  {
    seq(|s|, i requires 0 <= i < |s| => MinusculaChar(s[i]))
  }

  /** `h.includes(q)`: `q` occurs in `h` as a contiguous block. */
  predicate Contiene(h: string, q: string)
  {
    exists i :: 0 <= i <= |h| && q <= h[i..]
  }

  /** The decimal digits of a natural number, as `${n}` writes them. */
  function NatATexto(n: nat): (r: string)
    ensures |r| >= 1
    ensures forall k :: 0 <= k < |r| ==> '0' <= r[k] <= '9'
    decreases n
  {
    var d := ['0' + (n % 10) as char];
    if n < 10 then d else NatATexto(n / 10) + d
  }

  /** `${n}` for an integer `n`. */
  function EnteroATexto(n: int): string
  {
    if n < 0 then "-" + NatATexto(-n) else NatATexto(n)
  }

  /**
    The order of the default `sort()` on strings: lexicographic on units, a
    proper prefix first.
  */
  predicate LexMenorIgual(a: string, b: string)
  {
    if a == [] then true
    else if b == [] then false
    else if a[0] != b[0] then a[0] < b[0]
    else LexMenorIgual(a[1..], b[1..])
  }

  /** Insert `x` before the first element it is not above. */
  function Insertar(x: string, s: seq<string>): (r: seq<string>)
    ensures multiset(r) == multiset(s) + multiset{x}
  {
    if s == [] then [x]
    else if LexMenorIgual(x, s[0]) then [x] + s
    else
      assert s == [s[0]] + s[1..];
      [s[0]] + Insertar(x, s[1..])
  }

  /** `xs.sort()` on strings (insertion sort: the result is the same for a total order). */
  function Ordenar(s: seq<string>): (r: seq<string>)
    ensures multiset(r) == multiset(s)
  {
    if s == [] then []
    else
      assert s == [s[0]] + s[1..];
      Insertar(s[0], Ordenar(s[1..]))
  }

  predicate Ordenada(s: seq<string>)
  {
    forall i, j :: 0 <= i < j < |s| ==> LexMenorIgual(s[i], s[j])
  }

  lemma {:induction false} LexTotal(a: string, b: string)
    ensures LexMenorIgual(a, b) || LexMenorIgual(b, a)
  {
    if a != [] && b != [] && a[0] == b[0] {
      LexTotal(a[1..], b[1..]);
    }
  }

  lemma {:induction false} LexAntisimetrica(a: string, b: string)
    requires LexMenorIgual(a, b) && LexMenorIgual(b, a)
    ensures a == b
  {
    if a != [] && b != [] {
      LexAntisimetrica(a[1..], b[1..]);
      assert a == [a[0]] + a[1..];
      assert b == [b[0]] + b[1..];
    }
  }

  lemma {:induction false} LexTransitiva(a: string, b: string, c: string)
    requires LexMenorIgual(a, b) && LexMenorIgual(b, c)
    ensures LexMenorIgual(a, c)
  {
    if a != [] && b != [] && c != [] && a[0] == b[0] && b[0] == c[0] {
      LexTransitiva(a[1..], b[1..], c[1..]);
    }
  }

  lemma {:induction false} InsertarMiembro(x: string, s: seq<string>, y: string)
    ensures y in Insertar(x, s) <==> y == x || y in s
  {
    if s != [] && !LexMenorIgual(x, s[0]) {
      InsertarMiembro(x, s[1..], y);
      assert s == [s[0]] + s[1..];
    }
  }

  lemma {:induction false} InsertarOrdenada(x: string, s: seq<string>)
    requires Ordenada(s)
    ensures Ordenada(Insertar(x, s))
  {
    if s != [] {
      if LexMenorIgual(x, s[0]) {
        var r := [x] + s;
        forall i, j | 0 <= i < j < |r| ensures LexMenorIgual(r[i], r[j]) {
          if i == 0 && j > 1 {
            LexTransitiva(x, s[0], s[j - 1]);
          }
        }
      } else {
        LexTotal(x, s[0]);
        var t := Insertar(x, s[1..]);
        InsertarOrdenada(x, s[1..]);
        var r := [s[0]] + t;
        forall k | 0 <= k < |t| ensures LexMenorIgual(s[0], t[k]) {
          InsertarMiembro(x, s[1..], t[k]);
          if t[k] != x {
            var m :| 0 <= m < |s[1..]| && s[1..][m] == t[k];
            assert s[m + 1] == t[k];
          }
        }
        forall i, j | 0 <= i < j < |r| ensures LexMenorIgual(r[i], r[j]) {
          if i > 0 {
            assert r[i] == t[i - 1] && r[j] == t[j - 1];
          } else {
            assert r[j] == t[j - 1];
          }
        }
      }
    }
  }

  lemma {:induction false} InsertarSinRepetidos(x: string, s: seq<string>)
    requires x !in s
    requires forall i, j :: 0 <= i < j < |s| ==> s[i] != s[j]
    ensures forall i, j :: 0 <= i < j < |Insertar(x, s)| ==> Insertar(x, s)[i] != Insertar(x, s)[j]
  {
    if s != [] && !LexMenorIgual(x, s[0]) {
      var t := Insertar(x, s[1..]);
      assert forall i, j :: 0 <= i < j < |s[1..]| ==> s[1..][i] != s[1..][j] by {
        forall i, j | 0 <= i < j < |s[1..]| ensures s[1..][i] != s[1..][j] {
          assert s[1..][i] == s[i + 1] && s[1..][j] == s[j + 1];
        }
      }
      InsertarSinRepetidos(x, s[1..]);
      assert s[0] !in t by {
        assert s[0] !in s[1..];
        InsertarMiembro(x, s[1..], s[0]);
      }
      var r := [s[0]] + t;
      forall i, j | 0 <= i < j < |r| ensures r[i] != r[j] {
        if i == 0 {
          assert r[j] == t[j - 1];
          assert r[j] in t;
        } else {
          assert r[i] == t[i - 1] && r[j] == t[j - 1];
        }
      }
    } else if s != [] {
      var r := [x] + s;
      forall i, j | 0 <= i < j < |r| ensures r[i] != r[j] {
        if i == 0 {
          assert r[j] == s[j - 1];
        } else {
          assert r[i] == s[i - 1] && r[j] == s[j - 1];
        }
      }
    }
  }

  /** `sort()` puts the strings in order, and keeps them distinct when they were. */
  lemma {:induction false} OrdenarSpec(s: seq<string>)
    ensures Ordenada(Ordenar(s))
    ensures (forall i, j :: 0 <= i < j < |s| ==> s[i] != s[j]) ==>
              forall i, j :: 0 <= i < j < |Ordenar(s)| ==> Ordenar(s)[i] != Ordenar(s)[j]
  {
    if s != [] {
      OrdenarSpec(s[1..]);
      InsertarOrdenada(s[0], Ordenar(s[1..]));
      if forall i, j :: 0 <= i < j < |s| ==> s[i] != s[j] {
        assert forall i, j :: 0 <= i < j < |s[1..]| ==> s[1..][i] != s[1..][j] by {
          forall i, j | 0 <= i < j < |s[1..]| ensures s[1..][i] != s[1..][j] {
            assert s[1..][i] == s[i + 1] && s[1..][j] == s[j + 1];
          }
        }
        assert s[0] !in Ordenar(s[1..]) by {
          assert s[0] !in s[1..];
          assert s[0] !in multiset(Ordenar(s[1..]));
        }
        InsertarSinRepetidos(s[0], Ordenar(s[1..]));
      }
    }
  }

  /** Lower-casing never turns a non-space into a space or the other way round. */
  lemma MinusculaEspacio(c: char)
    ensures EsEspacio(MinusculaChar(c)) == EsEspacio(c)
    ensures EsEspacio(c) ==> MinusculaChar(c) == c
  {
  }

  lemma {:induction false} MinusculasConcat(a: string, b: string)
    ensures Minusculas(a + b) == Minusculas(a) + Minusculas(b)
  {
    assert forall i :: 0 <= i < |a + b| ==> Minusculas(a + b)[i] == (Minusculas(a) + Minusculas(b))[i];
  }

  lemma {:induction false} QuitarInicioMinusculas(s: string)
    ensures QuitarInicio(Minusculas(s)) == Minusculas(QuitarInicio(s))
  {
    if s != [] {
      MinusculaEspacio(s[0]);
      assert Minusculas(s)[0] == MinusculaChar(s[0]);
      if EsEspacio(s[0]) {
        assert Minusculas(s)[1..] == Minusculas(s[1..]);
        QuitarInicioMinusculas(s[1..]);
      }
    }
  }

  lemma {:induction false} QuitarFinalMinusculas(s: string)
    ensures QuitarFinal(Minusculas(s)) == Minusculas(QuitarFinal(s))
  {
    if s != [] {
      MinusculaEspacio(s[|s| - 1]);
      assert Minusculas(s)[|s| - 1] == MinusculaChar(s[|s| - 1]);
      if EsEspacio(s[|s| - 1]) {
        assert Minusculas(s)[..|s| - 1] == Minusculas(s[..|s| - 1]);
        QuitarFinalMinusculas(s[..|s| - 1]);
      }
    }
  }

  /**
    `s.trim().toLowerCase()` (the admin search box) and `s.toLowerCase().trim()`
    (the public search box) give the same query.
  */
  lemma RecortarMinusculas(s: string)
    ensures Minusculas(Recortar(s)) == Recortar(Minusculas(s))
  {
    QuitarInicioMinusculas(s);
    QuitarFinalMinusculas(QuitarInicio(s));
  }
}
