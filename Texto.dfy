/**
 * Python's `str.strip()` with no argument, as the percept-driven agents use it:
 * it removes leading and trailing characters for which `str.isspace()` holds.
 */
module Texto {

  /** The characters Python's `str.isspace()` accepts. */
  predicate EsEspacio(c: char)
  {
    ('\U{0009}' <= c <= '\U{000D}') || ('\U{001C}' <= c <= '\U{0020}')
    || c == '\U{0085}' || c == '\U{00A0}' || c == '\U{1680}'
    || ('\U{2000}' <= c <= '\U{200A}') || c == '\U{2028}' || c == '\U{2029}'
    || c == '\U{202F}' || c == '\U{205F}' || c == '\U{3000}'
  }

  /** Drops the leading whitespace. */
  function QuitaIzquierda(s: string): (r: string)
    decreases |s|
  {
    if |s| > 0 && EsEspacio(s[0]) then QuitaIzquierda(s[1..]) else s
  }

  /** Drops the trailing whitespace. */
  function QuitaDerecha(s: string): (r: string)
    decreases |s|
  {
    if |s| > 0 && EsEspacio(s[|s| - 1]) then QuitaDerecha(s[..|s| - 1]) else s
  }

  /** `s.strip()`. */
  function Strip(s: string): string
  {
    QuitaDerecha(QuitaIzquierda(s))
  }

  /** What is left after dropping leading whitespace is a suffix of `s` that does not start with whitespace. */
  lemma {:induction false} QuitaIzquierdaSufijo(s: string)
    ensures exists k :: 0 <= k <= |s| && QuitaIzquierda(s) == s[k..] && forall j :: 0 <= j < k ==> EsEspacio(s[j])
    ensures QuitaIzquierda(s) == "" || !EsEspacio(QuitaIzquierda(s)[0])
    decreases |s|
  {
    if |s| > 0 && EsEspacio(s[0]) {
      QuitaIzquierdaSufijo(s[1..]);
      var k :| 0 <= k <= |s[1..]| && QuitaIzquierda(s[1..]) == s[1..][k..] && forall j :: 0 <= j < k ==> EsEspacio(s[1..][j]);
      assert s[1..][k..] == s[k + 1..];
      assert forall j :: 0 <= j < k + 1 ==> EsEspacio(s[j]) by {
        forall j | 0 <= j < k + 1 ensures EsEspacio(s[j]) {
          if j > 0 { assert s[j] == s[1..][j - 1]; }
        }
      }
    } else {
      assert QuitaIzquierda(s) == s[0..];
    }
  }

  /** What is left after dropping trailing whitespace is a prefix of `s` that does not end with whitespace. */
  lemma {:induction false} QuitaDerechaPrefijo(s: string)
    ensures exists k :: 0 <= k <= |s| && QuitaDerecha(s) == s[..k] && forall j :: k <= j < |s| ==> EsEspacio(s[j])
    ensures QuitaDerecha(s) == "" || !EsEspacio(QuitaDerecha(s)[|QuitaDerecha(s)| - 1])
    decreases |s|
  {
    if |s| > 0 && EsEspacio(s[|s| - 1]) {
      var t := s[..|s| - 1];
      QuitaDerechaPrefijo(t);
      var k :| 0 <= k <= |t| && QuitaDerecha(t) == t[..k] && forall j :: k <= j < |t| ==> EsEspacio(t[j]);
      assert t[..k] == s[..k];
      assert forall j :: k <= j < |s| ==> EsEspacio(s[j]) by {
        forall j | k <= j < |s| ensures EsEspacio(s[j]) {
          if j < |s| - 1 { assert s[j] == t[j]; }
        }
      }
    } else {
      assert QuitaDerecha(s) == s[..|s|];
    }
  }

  /** A string without leading or trailing whitespace is left unchanged. */
  lemma {:induction false} StripSinBordes(s: string)
    requires s == "" || (!EsEspacio(s[0]) && !EsEspacio(s[|s| - 1]))
    ensures Strip(s) == s
  {
  }

  /** The stripped string is empty exactly when `s` is made only of whitespace. */
  lemma {:induction false} StripVacio(s: string)
    ensures Strip(s) == "" <==> forall j :: 0 <= j < |s| ==> EsEspacio(s[j])
  {
    QuitaIzquierdaSufijo(s);
    var k :| 0 <= k <= |s| && QuitaIzquierda(s) == s[k..] && forall j :: 0 <= j < k ==> EsEspacio(s[j]);
    var t := s[k..];
    if t == "" {
      assert k == |s|;
      assert QuitaDerecha(t) == "";
    } else {
      QuitaDerechaPrefijo(t);
      var m :| 0 <= m <= |t| && QuitaDerecha(t) == t[..m] && forall j :: m <= j < |t| ==> EsEspacio(t[j]);
      assert !EsEspacio(s[k]) by { assert s[k] == t[0]; }
      assert m > 0;
    }
  }

  /** The stripped string starts and ends with non-whitespace, and stripping again changes nothing. */
  lemma {:induction false} StripIdempotente(s: string)
    ensures Strip(s) == "" || (!EsEspacio(Strip(s)[0]) && !EsEspacio(Strip(s)[|Strip(s)| - 1]))
    ensures Strip(Strip(s)) == Strip(s)
  {
    var t := QuitaIzquierda(s);
    QuitaIzquierdaSufijo(s);
    QuitaDerechaPrefijo(t);
    var m :| 0 <= m <= |t| && QuitaDerecha(t) == t[..m] && forall j :: m <= j < |t| ==> EsEspacio(t[j]);
    if Strip(s) != "" {
      assert Strip(s)[0] == t[0];
    }
    StripSinBordes(Strip(s));
  }
}
