/**
 * The propositional-logic engine of `logica/proposiciones/motor.py`:
 * formulas as trees, their variables and truth values, the truth table,
 * the tautology / contradiction / contingency / equivalence tests,
 * structural identity, substitution and the validity of an argument.
 */
module Motor {
  import opened Tipos

  /**
   * A proposition. `And` and `Or` have any number of children; `Implica` is
   * premise => conclusion and `ImplicadoPor` is conclusion <= premise.
   */
  datatype Formula =
    | Constante(valor: bool)
    | Variable(nombre: string)
    | Not(hija: Formula)
    | And(hijas: seq<Formula>)
    | Or(hijas: seq<Formula>)
    | Implica(premisa: Formula, conclusion: Formula)
    | ImplicadoPor(conclusion: Formula, premisa: Formula)
    | Equivale(izquierda: Formula, derecha: Formula)

  /** A truth assignment: variable name to value, one row of the truth table. */
  type Fila = map<string, bool>

  /**
   * The Python values a proposition can be built from: a proposition, a string,
   * a bool, or anything else (`None`, a number, ...), of which only its
   * truthiness matters.
   */
  datatype Valor = Proposicion(f: Formula) | Cadena(s: string) | Booleano(b: bool) | Otro(veraz: bool)

  // ---------------------------------------------------------------------------
  // Building propositions
  // ---------------------------------------------------------------------------

  /** `_crea_proposicion`: a proposition is kept, a string names a variable, a bool is a constant; anything else is an error (None). */
  function CreaProposicion(v: Valor): (r: Option<Formula>)
    ensures r.None? <==> v.Otro?
    ensures v.Proposicion? ==> r == Some(v.f)
    ensures v.Cadena? ==> r == Some(Variable(v.s))
    ensures v.Booleano? ==> r == Some(Constante(v.b))
  {
    match v
    case Proposicion(f) => Some(f)
    case Cadena(s) => Some(Variable(s))
    case Booleano(b) => Some(Constante(b))
    case Otro(_) => None
  }

  /** The operands an `&` contributes: the children of an `And`, or the formula itself. */
  function Conjuntos(f: Formula): seq<Formula>
  {
    if f.And? then f.hijas else [f]
  }

  /** The operands an `|` contributes: the children of an `Or`, or the formula itself. */
  function Disyuntos(f: Formula): seq<Formula>
  {
    if f.Or? then f.hijas else [f]
  }

  /** `a & b`: one flat `And` over the operands of both sides. */
  function Conj(a: Formula, b: Formula): Formula
  {
    And(Conjuntos(a) + Conjuntos(b))
  }

  /** `a | b`: one flat `Or` over the operands of both sides. */
  function Disy(a: Formula, b: Formula): Formula
  {
    Or(Disyuntos(a) + Disyuntos(b))
  }

  /** `&` is associative up to `es_identica`: both groupings build the same flat `And`. */
  lemma ConjAsociativa(a: Formula, b: Formula, c: Formula)
    ensures Conj(Conj(a, b), c) == Conj(a, Conj(b, c))
  {
    assert Conjuntos(a) + Conjuntos(b) + Conjuntos(c) == Conjuntos(a) + (Conjuntos(b) + Conjuntos(c));
  }

  /** `|` is associative up to `es_identica`: both groupings build the same flat `Or`. */
  lemma DisyAsociativa(a: Formula, b: Formula, c: Formula)
    ensures Disy(Disy(a, b), c) == Disy(a, Disy(b, c))
  {
    assert Disyuntos(a) + Disyuntos(b) + Disyuntos(c) == Disyuntos(a) + (Disyuntos(b) + Disyuntos(c));
  }

  // ---------------------------------------------------------------------------
  // Variables and evaluation
  // ---------------------------------------------------------------------------

  /** `variables()`: the names of the variables that occur in the formula. */
  function Variables(f: Formula): set<string>
    decreases f, 1
  {
    match f
    case Constante(_) => {}
    case Variable(n) => {n}
    case Not(h) => Variables(h)
    case And(hs) => VariablesLista(hs)
    case Or(hs) => VariablesLista(hs)
    case Implica(p, c) => Variables(p) + Variables(c)
    case ImplicadoPor(c, p) => Variables(c) + Variables(p)
    case Equivale(a, b) => Variables(a) + Variables(b)
  }

  /** The union of the variables of a list of formulas. */
  function VariablesLista(hs: seq<Formula>): (r: set<string>)
    ensures forall i :: 0 <= i < |hs| ==> Variables(hs[i]) <= r
    decreases hs, 0
  {
    if hs == [] then {} else Variables(hs[0]) + VariablesLista(hs[1..])
  }

  /** The variables of a list are exactly those of its members. */
  lemma {:induction false} VariablesListaMiembros(hs: seq<Formula>, v: string)
    ensures v in VariablesLista(hs) <==> exists i :: 0 <= i < |hs| && v in Variables(hs[i])
    decreases hs
  {
    if hs != [] {
      VariablesListaMiembros(hs[1..], v);
      if v in VariablesLista(hs[1..]) {
        var i :| 0 <= i < |hs[1..]| && v in Variables(hs[1..][i]);
        assert hs[1..][i] == hs[i + 1];
      }
      if exists i :: 0 <= i < |hs| && v in Variables(hs[i]) {
        var i :| 0 <= i < |hs| && v in Variables(hs[i]);
        if i > 0 { assert hs[i] == hs[1..][i - 1]; }
      }
    }
  }

  /** The variables of a concatenated list are the union of both. */
  lemma {:induction false} VariablesListaConcat(xs: seq<Formula>, ys: seq<Formula>)
    ensures VariablesLista(xs + ys) == VariablesLista(xs) + VariablesLista(ys)
    decreases xs
  {
    if xs == [] {
      assert xs + ys == ys;
    } else {
      assert (xs + ys)[1..] == xs[1..] + ys;
      VariablesListaConcat(xs[1..], ys);
    }
  }

  /**
   * `evaluar(**fila)`: the truth value of the formula. Every variable must have
   * a value (otherwise the source raises `KeyError`).
   */
  function Evaluar(f: Formula, m: Fila): bool
    requires Variables(f) <= m.Keys
    decreases f, 1
  {
    match f
    case Constante(v) => v
    case Variable(n) => m[n]
    case Not(h) => !Evaluar(h, m)
    case And(hs) => Todas(hs, m)
    case Or(hs) => Alguna(hs, m)
    case Implica(p, c) => if Evaluar(p, m) then Evaluar(c, m) else true
    case ImplicadoPor(c, p) => if Evaluar(p, m) then Evaluar(c, m) else true
    case Equivale(a, b) => Evaluar(a, m) == Evaluar(b, m)
  }

  /** Python's `all(...)` over the children. */
  function Todas(hs: seq<Formula>, m: Fila): bool
    requires VariablesLista(hs) <= m.Keys
    decreases hs, 0
  {
    if hs == [] then true else Evaluar(hs[0], m) && Todas(hs[1..], m)
  }

  /** Python's `any(...)` over the children. */
  function Alguna(hs: seq<Formula>, m: Fila): bool
    requires VariablesLista(hs) <= m.Keys
    decreases hs, 0
  {
    if hs == [] then false else Evaluar(hs[0], m) || Alguna(hs[1..], m)
  }

  /** `Todas` holds exactly when every child is true, `Alguna` exactly when some child is. */
  lemma {:induction false} TodasAlguna(hs: seq<Formula>, m: Fila)
    requires VariablesLista(hs) <= m.Keys
    ensures forall i :: 0 <= i < |hs| ==> Variables(hs[i]) <= m.Keys
    ensures Todas(hs, m) <==> forall i :: 0 <= i < |hs| ==> Evaluar(hs[i], m)
    ensures Alguna(hs, m) <==> exists i :: 0 <= i < |hs| && Evaluar(hs[i], m)
    decreases hs
  {
    forall i | 0 <= i < |hs| ensures Variables(hs[i]) <= m.Keys {
      forall v | v in Variables(hs[i]) ensures v in m.Keys {
        VariablesListaMiembros(hs, v);
      }
    }
    if hs != [] {
      TodasAlguna(hs[1..], m);
      assert forall i :: 0 <= i < |hs[1..]| ==> hs[1..][i] == hs[i + 1];
      if Alguna(hs, m) && !Evaluar(hs[0], m) {
        var i :| 0 <= i < |hs[1..]| && Evaluar(hs[1..][i], m);
        assert Evaluar(hs[i + 1], m);
      }
    }
  }

  /**
   * The truth tables: `Not` negates, `And` is "all" (True when empty), `Or` is
   * "any" (False when empty), `Implica` is false only for a true premise and a
   * false conclusion, `ImplicadoPor` only for a true second child and a false
   * first one, and `Equivale` is equality.
   */
  lemma TablasDeVerdad(f: Formula, m: Fila)
    requires Variables(f) <= m.Keys
    ensures f.Not? ==> Evaluar(f, m) == !Evaluar(f.hija, m)
    ensures f.And? ==> (Evaluar(f, m) <==> forall i :: 0 <= i < |f.hijas| ==> Evaluar(f.hijas[i], m))
    ensures f.Or? ==> (Evaluar(f, m) <==> exists i :: 0 <= i < |f.hijas| && Evaluar(f.hijas[i], m))
    ensures f.And? && f.hijas == [] ==> Evaluar(f, m)
    ensures f.Or? && f.hijas == [] ==> !Evaluar(f, m)
    ensures f.Implica? ==> (!Evaluar(f, m) <==> Evaluar(f.premisa, m) && !Evaluar(f.conclusion, m))
    ensures f.ImplicadoPor? ==> (!Evaluar(f, m) <==> Evaluar(f.premisa, m) && !Evaluar(f.conclusion, m))
    ensures f.Equivale? ==> (Evaluar(f, m) <==> Evaluar(f.izquierda, m) == Evaluar(f.derecha, m))
  {
    if f.And? || f.Or? {
      TodasAlguna(f.hijas, m);
    }
  }

  /** The value depends only on the formula's own variables. */
  lemma {:induction false} EvaluarLocal(f: Formula, m1: Fila, m2: Fila)
    requires Variables(f) <= m1.Keys && Variables(f) <= m2.Keys
    requires forall v :: v in Variables(f) ==> m1[v] == m2[v]
    ensures Evaluar(f, m1) == Evaluar(f, m2)
    decreases f, 1
  {
    match f
    case Constante(_) =>
    case Variable(_) =>
    case Not(h) => EvaluarLocal(h, m1, m2);
    case And(hs) => ListaLocal(hs, m1, m2);
    case Or(hs) => ListaLocal(hs, m1, m2);
    case Implica(p, c) => EvaluarLocal(p, m1, m2); EvaluarLocal(c, m1, m2);
    case ImplicadoPor(c, p) => EvaluarLocal(p, m1, m2); EvaluarLocal(c, m1, m2);
    case Equivale(a, b) => EvaluarLocal(a, m1, m2); EvaluarLocal(b, m1, m2);
  }

  lemma {:induction false} ListaLocal(hs: seq<Formula>, m1: Fila, m2: Fila)
    requires VariablesLista(hs) <= m1.Keys && VariablesLista(hs) <= m2.Keys
    requires forall v :: v in VariablesLista(hs) ==> m1[v] == m2[v]
    ensures Todas(hs, m1) == Todas(hs, m2) && Alguna(hs, m1) == Alguna(hs, m2)
    decreases hs, 0
  {
    if hs != [] {
      EvaluarLocal(hs[0], m1, m2);
      ListaLocal(hs[1..], m1, m2);
    }
  }

  /** `Todas` over a concatenation is the conjunction of both halves; likewise `Alguna` and the disjunction. */
  lemma {:induction false} ListaConcat(xs: seq<Formula>, ys: seq<Formula>, m: Fila)
    requires VariablesLista(xs + ys) <= m.Keys
    ensures VariablesLista(xs) <= m.Keys && VariablesLista(ys) <= m.Keys
    ensures Todas(xs + ys, m) == (Todas(xs, m) && Todas(ys, m))
    ensures Alguna(xs + ys, m) == (Alguna(xs, m) || Alguna(ys, m))
    decreases xs
  {
    VariablesListaConcat(xs, ys);
    if xs == [] {
      assert xs + ys == ys;
    } else {
      assert (xs + ys)[1..] == xs[1..] + ys;
      ListaConcat(xs[1..], ys, m);
    }
  }

  /** The operands `&` takes from a formula have its variables and are all true exactly when it is. */
  lemma ConjuntosFieles(a: Formula, m: Fila)
    ensures VariablesLista(Conjuntos(a)) == Variables(a)
    ensures Variables(a) <= m.Keys ==> Todas(Conjuntos(a), m) == Evaluar(a, m)
  {
    if !a.And? {
      assert Conjuntos(a)[1..] == [];
    }
  }

  /** The operands `|` takes from a formula have its variables and some is true exactly when it is. */
  lemma DisyuntosFieles(a: Formula, m: Fila)
    ensures VariablesLista(Disyuntos(a)) == Variables(a)
    ensures Variables(a) <= m.Keys ==> Alguna(Disyuntos(a), m) == Evaluar(a, m)
  {
    if !a.Or? {
      assert Disyuntos(a)[1..] == [];
    }
  }

  /** `a & b` has the variables of both sides and is true exactly when both are. */
  lemma ConjCorrecta(a: Formula, b: Formula, m: Fila)
    ensures Variables(Conj(a, b)) == Variables(a) + Variables(b)
    ensures Variables(a) + Variables(b) <= m.Keys ==> (Evaluar(Conj(a, b), m) <==> Evaluar(a, m) && Evaluar(b, m))
  {
    var xs, ys := Conjuntos(a), Conjuntos(b);
    VariablesListaConcat(xs, ys);
    ConjuntosFieles(a, m);
    ConjuntosFieles(b, m);
    assert Variables(Conj(a, b)) == VariablesLista(xs + ys);
    if Variables(a) + Variables(b) <= m.Keys {
      ListaConcat(xs, ys, m);
      assert Evaluar(Conj(a, b), m) == Todas(xs + ys, m);
    }
  }

  /** `a | b` has the variables of both sides and is true exactly when either is. */
  lemma DisyCorrecta(a: Formula, b: Formula, m: Fila)
    ensures Variables(Disy(a, b)) == Variables(a) + Variables(b)
    ensures Variables(a) + Variables(b) <= m.Keys ==> (Evaluar(Disy(a, b), m) <==> Evaluar(a, m) || Evaluar(b, m))
  {
    var xs, ys := Disyuntos(a), Disyuntos(b);
    VariablesListaConcat(xs, ys);
    DisyuntosFieles(a, m);
    DisyuntosFieles(b, m);
    assert Variables(Disy(a, b)) == VariablesLista(xs + ys);
    if Variables(a) + Variables(b) <= m.Keys {
      ListaConcat(xs, ys, m);
      assert Evaluar(Disy(a, b), m) == Alguna(xs + ys, m);
    }
  }

  // ---------------------------------------------------------------------------
  // The truth table
  // ---------------------------------------------------------------------------

  function Pow2(n: nat): nat
  {
    if n == 0 then 1 else 2 * Pow2(n - 1)
  }

  /** The set of names in a list. */
  function ConjuntoDe(vs: seq<string>): set<string>
  {
    set v | v in vs
  }

  /** No name occurs twice in the list. */
  predicate Distintas(vs: seq<string>)
  {
    forall i, j :: 0 <= i < j < |vs| ==> vs[i] != vs[j]
  }

  /** Every row of `filas` extended by `v := valor`; a value `v` already has in a row wins, as in `dict([(v, valor)] + fila.items())`. */
  function Combina(v: string, valor: bool, filas: seq<Fila>): seq<Fila>
  {
    seq(|filas|, i requires 0 <= i < |filas| => map[v := valor] + filas[i])
  }

  /** `_combina`: builds the extended rows one at a time, in order. */
  method CombinaFilas(v: string, valor: bool, filas: seq<Fila>) returns (valores: seq<Fila>)
    ensures valores == Combina(v, valor, filas)
  {
    valores := [];
    var i := 0;
    while i < |filas|
      invariant 0 <= i <= |filas|
      invariant |valores| == i
      invariant forall k :: 0 <= k < i ==> valores[k] == map[v := valor] + filas[k]
    {
      valores := valores + [map[v := valor] + filas[i]];
      i := i + 1;
    }
  }

  /**
   * `_crea_filas_tabla_verdad`: `[{}]` for no variables; otherwise the rows of
   * the other variables with the first one True, then the same rows with it
   * False. There are 2^n rows and each gives a value to every variable.
   */
  function Filas(vs: seq<string>): (r: seq<Fila>)
    ensures |r| == Pow2(|vs|)
    ensures forall i :: 0 <= i < |r| ==> r[i].Keys == ConjuntoDe(vs)
    decreases |vs|
  {
    if |vs| == 0 then [map[]]
    else
      var resto := Filas(vs[1..]);
      assert ConjuntoDe(vs) == {vs[0]} + ConjuntoDe(vs[1..]);
      Combina(vs[0], true, resto) + Combina(vs[0], false, resto)
  }

  /** With distinct variables, the first half of the rows sets the first variable True and the second half False. */
  lemma FilasMitades(vs: seq<string>)
    requires |vs| > 0 && Distintas(vs)
    ensures var r := Filas(vs);
      forall i :: 0 <= i < |r| ==> r[i][vs[0]] == (i < Pow2(|vs| - 1))
  {
    var resto := Filas(vs[1..]);
    assert vs[0] !in ConjuntoDe(vs[1..]);
    assert forall i :: 0 <= i < |resto| ==> vs[0] !in resto[i].Keys;
  }

  /** The row `m` without the entry for `v`. */
  function Sin(m: Fila, v: string): Fila
  {
    map k | k in m && k != v :: m[k]
  }

  /** Extending a row that lacks `v` by `v := valor` and removing `v` again gives the row back. */
  lemma ExtenderSin(v: string, valor: bool, f: Fila)
    requires v !in f
    ensures Sin(map[v := valor] + f, v) == f
    ensures (map[v := valor] + f)[v] == valor
  {
  }

  /** A row is its value for `v` put back onto the row without `v`. */
  lemma SinReconstruye(m: Fila, v: string)
    requires v in m
    ensures map[v := m[v]] + Sin(m, v) == m
  {
  }

  /** Row `i` of the table over a non-empty list: the first variable is True in the first half, over the matching row of the rest. */
  lemma FilaEn(vs: seq<string>, i: nat)
    requires |vs| > 0 && i < |Filas(vs)|
    ensures var h := Pow2(|vs| - 1);
      Filas(vs)[i] == map[vs[0] := i < h] + Filas(vs[1..])[if i < h then i else i - h]
  {
    var h := Pow2(|vs| - 1);
    var resto := Filas(vs[1..]);
    var a := Combina(vs[0], true, resto);
    var b := Combina(vs[0], false, resto);
    assert Filas(vs) == a + b && |a| == h;
    if i < h {
      assert Filas(vs)[i] == a[i];
    } else {
      assert Filas(vs)[i] == b[i - h];
    }
  }

  /** With distinct variables, every total assignment of them is a row. */
  lemma {:induction false} FilasCompletas(vs: seq<string>, m: Fila)
    requires Distintas(vs) && m.Keys == ConjuntoDe(vs)
    ensures m in Filas(vs)
    decreases |vs|
  {
    if |vs| == 0 {
      assert m == map[];
    } else {
      var v := vs[0];
      var resto := Filas(vs[1..]);
      var m' := Sin(m, v);
      assert ConjuntoDe(vs) == {v} + ConjuntoDe(vs[1..]);
      assert v !in ConjuntoDe(vs[1..]);
      assert Distintas(vs[1..]);
      assert m'.Keys == ConjuntoDe(vs[1..]);
      FilasCompletas(vs[1..], m');
      var i :| 0 <= i < |resto| && resto[i] == m';
      FilaReconstruida(vs, m, i);
    }
  }

  /** One step of `FilasCompletas`: a row over the rest of the names, extended by the value of the first, is a row over all. */
  lemma FilaReconstruida(vs: seq<string>, m: Fila, i: nat)
    requires |vs| > 0 && vs[0] in m && i < |Filas(vs[1..])| && Filas(vs[1..])[i] == Sin(m, vs[0])
    ensures m in Filas(vs)
  {
    var v := vs[0];
    var h := Pow2(|vs| - 1);
    assert |Filas(vs[1..])| == h && |Filas(vs)| == 2 * h;
    var j := if m[v] then i else h + i;
    assert (j < h) == m[v] && (if j < h then j else j - h) == i;
    FilaEn(vs, j);
    assert Filas(vs)[j] == map[v := m[v]] + Sin(m, v);
    SinReconstruye(m, v);
  }

  /** With distinct variables, no row occurs twice. */
  lemma {:induction false} FilasDistintas(vs: seq<string>)
    requires Distintas(vs)
    ensures var r := Filas(vs); forall i, j :: 0 <= i < j < |r| ==> r[i] != r[j]
    decreases |vs|
  {
    if |vs| > 0 {
      assert Distintas(vs[1..]);
      FilasDistintas(vs[1..]);
      var r := Filas(vs);
      forall i, j | 0 <= i < j < |r| ensures r[i] != r[j] {
        FilasParDistinto(vs, i, j);
      }
    }
  }

  /** One step of `FilasDistintas`: two rows over `vs` differ when the rows over the other names never repeat. */
  lemma FilasParDistinto(vs: seq<string>, i: nat, j: nat)
    requires Distintas(vs) && |vs| > 0 && i < j < |Filas(vs)|
    requires var resto := Filas(vs[1..]); forall a, b :: 0 <= a < b < |resto| ==> resto[a] != resto[b]
    ensures Filas(vs)[i] != Filas(vs)[j]
  {
    var v := vs[0];
    var resto := Filas(vs[1..]);
    var h := |resto|;
    assert v !in ConjuntoDe(vs[1..]);
    FilaEn(vs, i);
    FilaEn(vs, j);
    var a := if i < h then i else i - h;
    var b := if j < h then j else j - h;
    assert v !in resto[a] && v !in resto[b];
    ExtenderSin(v, i < h, resto[a]);
    ExtenderSin(v, j < h, resto[b]);
    if (i < h) == (j < h) {
      assert a != b;
    }
  }

  /** Some enumeration, without repetitions, of a finite set of names (the iteration order of a `frozenset` is unspecified). */
  ghost function Orden(s: set<string>): (r: seq<string>)
    ensures ConjuntoDe(r) == s && Distintas(r)
    decreases |s|
  {
    if s == {} then []
    else
      var x :| x in s;
      var resto := Orden(s - {x});
      assert ConjuntoDe([x] + resto) == {x} + ConjuntoDe(resto);
      [x] + resto
  }

  /** A formula is true on every row of the table over `vs` exactly when it is true on every total assignment of those names. */
  lemma CiertaEnFilas(f: Formula, vs: seq<string>)
    requires Distintas(vs) && Variables(f) <= ConjuntoDe(vs)
    ensures (forall i :: 0 <= i < |Filas(vs)| ==> Evaluar(f, Filas(vs)[i]))
        <==> (forall m: Fila :: Variables(f) <= m.Keys ==> Evaluar(f, m))
  {
    var r := Filas(vs);
    if forall i :: 0 <= i < |r| ==> Evaluar(f, r[i]) {
      forall m: Fila | Variables(f) <= m.Keys ensures Evaluar(f, m) {
        CiertaEnAsignacion(f, vs, m);
      }
    } else {
      var i :| 0 <= i < |r| && !Evaluar(f, r[i]);
      assert Variables(f) <= r[i].Keys;
    }
  }

  /** A formula true on every row over `vs` is true on any assignment of its variables, which agrees with some row. */
  lemma CiertaEnAsignacion(f: Formula, vs: seq<string>, m: Fila)
    requires Distintas(vs) && Variables(f) <= ConjuntoDe(vs) && Variables(f) <= m.Keys
    requires forall i :: 0 <= i < |Filas(vs)| ==> Evaluar(f, Filas(vs)[i])
    ensures Evaluar(f, m)
  {
    var r := Filas(vs);
    var m' := map k | k in ConjuntoDe(vs) :: if k in m then m[k] else false;
    FilasCompletas(vs, m');
    var i :| 0 <= i < |r| && r[i] == m';
    assert Evaluar(f, m');
    EvaluarLocal(f, m, m');
  }

  lemma {:induction false} Pow2Positivo(n: nat)
    ensures Pow2(n) >= 1
  {
    if n > 0 { Pow2Positivo(n - 1); }
  }

  // ---------------------------------------------------------------------------
  // Tautology, contradiction, contingency, equivalence
  // ---------------------------------------------------------------------------

  /** `es_tautologia`: true on every row of the table over the formula's variables. */
  ghost predicate EsTautologia(f: Formula)
  {
    var t := Filas(Orden(Variables(f)));
    forall i :: 0 <= i < |t| ==> Evaluar(f, t[i])
  }

  /** `es_contradiccion`: false on every row. */
  ghost predicate EsContradiccion(f: Formula)
  {
    var t := Filas(Orden(Variables(f)));
    forall i :: 0 <= i < |t| ==> !Evaluar(f, t[i])
  }

  /** `es_contingente`: neither a tautology nor a contradiction. */
  ghost predicate EsContingente(f: Formula)
  {
    !EsTautologia(f) && !EsContradiccion(f)
  }

  /** `es_equivalente` (also what `==` means): the same value on every row over the union of both variable sets. */
  ghost predicate EsEquivalente(f: Formula, g: Formula)
  {
    var t := Filas(Orden(Variables(f) + Variables(g)));
    forall i :: 0 <= i < |t| ==> Evaluar(f, t[i]) == Evaluar(g, t[i])
  }

  /** A tautology is a formula true under every assignment of its variables. */
  lemma TautologiaSemantica(f: Formula)
    ensures EsTautologia(f) <==> forall m: Fila :: Variables(f) <= m.Keys ==> Evaluar(f, m)
  {
    CiertaEnFilas(f, Orden(Variables(f)));
  }

  /** A contradiction is a formula false under every assignment of its variables. */
  lemma ContradiccionSemantica(f: Formula)
    ensures EsContradiccion(f) <==> forall m: Fila :: Variables(f) <= m.Keys ==> !Evaluar(f, m)
  {
    CiertaEnFilas(Not(f), Orden(Variables(f)));
  }

  /** Two formulas are equivalent exactly when they agree under every assignment of their variables. */
  lemma EquivalenteSemantica(f: Formula, g: Formula)
    ensures EsEquivalente(f, g) <==>
      forall m: Fila :: Variables(f) + Variables(g) <= m.Keys ==> Evaluar(f, m) == Evaluar(g, m)
  {
    CiertaEnFilas(Equivale(f, g), Orden(Variables(f) + Variables(g)));
  }

  /**
   * The verdict does not depend on the order in which the variables are
   * enumerated: any list of the variables without repetitions gives the same
   * answer.
   */
  lemma TautologiaSinOrden(f: Formula, vs: seq<string>)
    requires Distintas(vs) && ConjuntoDe(vs) == Variables(f)
    ensures EsTautologia(f) <==> forall i :: 0 <= i < |Filas(vs)| ==> Evaluar(f, Filas(vs)[i])
  {
    TautologiaSemantica(f);
    CiertaEnFilas(f, vs);
  }

  /** Exactly one of `es_tautologia`, `es_contradiccion` and `es_contingente` holds, since the table has a row. */
  lemma ExactamenteUna(f: Formula)
    ensures EsTautologia(f) || EsContradiccion(f) || EsContingente(f)
    ensures !(EsTautologia(f) && EsContradiccion(f))
    ensures !(EsTautologia(f) && EsContingente(f)) && !(EsContradiccion(f) && EsContingente(f))
  {
    var t := Filas(Orden(Variables(f)));
    Pow2Positivo(|Orden(Variables(f))|);
    assert Variables(f) <= t[0].Keys;
    assert Evaluar(f, t[0]) || !Evaluar(f, t[0]);
  }

  /** A contingent formula is true under some assignment and false under another. */
  lemma ContingenteSemantica(f: Formula)
    ensures EsContingente(f) <==>
      (exists m: Fila :: Variables(f) <= m.Keys && Evaluar(f, m)) && (exists m: Fila :: Variables(f) <= m.Keys && !Evaluar(f, m))
  {
    TautologiaSemantica(f);
    ContradiccionSemantica(f);
  }

  /** `es_equivalente` is reflexive and symmetric. */
  lemma EquivalenteReflexivaSimetrica(f: Formula, g: Formula)
    ensures EsEquivalente(f, f)
    ensures EsEquivalente(f, g) <==> EsEquivalente(g, f)
  {
    assert Variables(f) + Variables(g) == Variables(g) + Variables(f);
  }

  /** `P >> Q` is equivalent to `~P | Q` without being identical to it. */
  lemma DemoEquivalencia()
    ensures EsEquivalente(Implica(Variable("P"), Variable("Q")), Disy(Not(Variable("P")), Variable("Q")))
    ensures !EsIdentica(Implica(Variable("P"), Variable("Q")), Disy(Not(Variable("P")), Variable("Q")))
  {
    var p, q := Variable("P"), Variable("Q");
    forall m: Fila | Variables(Implica(p, q)) + Variables(Disy(Not(p), q)) <= m.Keys
      ensures Evaluar(Implica(p, q), m) == Evaluar(Disy(Not(p), q), m)
    {
      DisyCorrecta(Not(p), q, m);
    }
    EquivalenteSemantica(Implica(p, q), Disy(Not(p), q));
  }

  // ---------------------------------------------------------------------------
  // Identity and substitution
  // ---------------------------------------------------------------------------

  /** `es_identica`: same kind of proposition, same constant or name, and pairwise identical children. */
  function EsIdentica(f: Formula, g: Formula): bool
    decreases f, 1
  {
    match f
    case Constante(v) => g.Constante? && g.valor == v
    case Variable(n) => g.Variable? && g.nombre == n
    case Not(h) => g.Not? && EsIdentica(h, g.hija)
    case And(hs) => g.And? && IdenticasLista(hs, g.hijas)
    case Or(hs) => g.Or? && IdenticasLista(hs, g.hijas)
    case Implica(p, c) => g.Implica? && EsIdentica(p, g.premisa) && EsIdentica(c, g.conclusion)
    case ImplicadoPor(c, p) => g.ImplicadoPor? && EsIdentica(c, g.conclusion) && EsIdentica(p, g.premisa)
    case Equivale(a, b) => g.Equivale? && EsIdentica(a, g.izquierda) && EsIdentica(b, g.derecha)
  }

  /** Same length and pairwise identical. */
  function IdenticasLista(xs: seq<Formula>, ys: seq<Formula>): bool
    decreases xs, 0
  {
    if xs == [] then ys == []
    else ys != [] && EsIdentica(xs[0], ys[0]) && IdenticasLista(xs[1..], ys[1..])
  }

  /** `es_identica` is exactly structural equality. */
  lemma {:induction false} IdenticaEsIgualdad(f: Formula, g: Formula)
    ensures EsIdentica(f, g) <==> f == g
    decreases f, 1
  {
    match f
    case Constante(_) =>
    case Variable(_) =>
    case Not(h) => if g.Not? { IdenticaEsIgualdad(h, g.hija); }
    case And(hs) => if g.And? { IdenticasListaEsIgualdad(hs, g.hijas); }
    case Or(hs) => if g.Or? { IdenticasListaEsIgualdad(hs, g.hijas); }
    case Implica(p, c) => if g.Implica? { IdenticaEsIgualdad(p, g.premisa); IdenticaEsIgualdad(c, g.conclusion); }
    case ImplicadoPor(c, p) => if g.ImplicadoPor? { IdenticaEsIgualdad(p, g.premisa); IdenticaEsIgualdad(c, g.conclusion); }
    case Equivale(a, b) => if g.Equivale? { IdenticaEsIgualdad(a, g.izquierda); IdenticaEsIgualdad(b, g.derecha); }
  }

  lemma {:induction false} IdenticasListaEsIgualdad(xs: seq<Formula>, ys: seq<Formula>)
    ensures IdenticasLista(xs, ys) <==> xs == ys
    decreases xs, 0
  {
    if xs != [] && ys != [] {
      IdenticaEsIgualdad(xs[0], ys[0]);
      IdenticasListaEsIgualdad(xs[1..], ys[1..]);
      if xs[0] == ys[0] && xs[1..] == ys[1..] {
        assert xs == [xs[0]] + xs[1..] && ys == [ys[0]] + ys[1..];
      }
    }
  }

  /**
   * `sustituye(una, otra)`: every subterm identical to `una` becomes `otra`,
   * looking at a node before its children; a constant is always rebuilt as
   * itself and never replaced.
   */
  function Sustituye(f: Formula, una: Formula, otra: Formula): Formula
    decreases f, 1
  {
    if f.Constante? then Constante(f.valor)
    else if EsIdentica(f, una) then otra
    else
      match f
      case Variable(n) => Variable(n)
      case Not(h) => Not(Sustituye(h, una, otra))
      case And(hs) => And(SustituyeLista(hs, una, otra))
      case Or(hs) => Or(SustituyeLista(hs, una, otra))
      case Implica(p, c) => Implica(Sustituye(p, una, otra), Sustituye(c, una, otra))
      case ImplicadoPor(c, p) => ImplicadoPor(Sustituye(c, una, otra), Sustituye(p, una, otra))
      case Equivale(a, b) => Equivale(Sustituye(a, una, otra), Sustituye(b, una, otra))
  }

  function SustituyeLista(hs: seq<Formula>, una: Formula, otra: Formula): (r: seq<Formula>)
    ensures |r| == |hs|
    decreases hs, 0
  {
    if hs == [] then [] else [Sustituye(hs[0], una, otra)] + SustituyeLista(hs[1..], una, otra)
  }

  /** `una` occurs in `f` at a position `sustituye` looks at (anywhere but inside a constant). */
  predicate Ocurre(una: Formula, f: Formula)
    decreases f, 1
  {
    match f
    case Constante(_) => false
    case Variable(_) => f == una
    case Not(h) => f == una || Ocurre(una, h)
    case And(hs) => f == una || OcurreLista(una, hs)
    case Or(hs) => f == una || OcurreLista(una, hs)
    case Implica(p, c) => f == una || Ocurre(una, p) || Ocurre(una, c)
    case ImplicadoPor(c, p) => f == una || Ocurre(una, c) || Ocurre(una, p)
    case Equivale(a, b) => f == una || Ocurre(una, a) || Ocurre(una, b)
  }

  predicate OcurreLista(una: Formula, hs: seq<Formula>)
    decreases hs, 0
  {
    hs != [] && (Ocurre(una, hs[0]) || OcurreLista(una, hs[1..]))
  }

  /** When `una` does not occur, the substituted formula is identical to the original; in particular a constant `una` never changes anything. */
  lemma {:induction false} SinOcurrenciaIdentica(f: Formula, una: Formula, otra: Formula)
    requires !Ocurre(una, f)
    ensures Sustituye(f, una, otra) == f
    decreases f, 1
  {
    IdenticaEsIgualdad(f, una);
    match f
    case Constante(_) =>
    case Variable(_) =>
    case Not(h) => SinOcurrenciaIdentica(h, una, otra);
    case And(hs) => SinOcurrenciaLista(hs, una, otra);
    case Or(hs) => SinOcurrenciaLista(hs, una, otra);
    case Implica(p, c) => SinOcurrenciaIdentica(p, una, otra); SinOcurrenciaIdentica(c, una, otra);
    case ImplicadoPor(c, p) => SinOcurrenciaIdentica(p, una, otra); SinOcurrenciaIdentica(c, una, otra);
    case Equivale(a, b) => SinOcurrenciaIdentica(a, una, otra); SinOcurrenciaIdentica(b, una, otra);
  }

  lemma {:induction false} SinOcurrenciaLista(hs: seq<Formula>, una: Formula, otra: Formula)
    requires !OcurreLista(una, hs)
    ensures SustituyeLista(hs, una, otra) == hs
    decreases hs, 0
  {
    if hs != [] {
      SinOcurrenciaIdentica(hs[0], una, otra);
      SinOcurrenciaLista(hs[1..], una, otra);
      assert hs == [hs[0]] + hs[1..];
    }
  }

  /** A constant never occurs where `sustituye` looks, so substituting a constant leaves every formula unchanged. */
  lemma {:induction false} ConstanteNoOcurre(f: Formula, v: bool)
    ensures !Ocurre(Constante(v), f)
    decreases f, 1
  {
    match f
    case Constante(_) =>
    case Variable(_) =>
    case Not(h) => ConstanteNoOcurre(h, v);
    case And(hs) => ConstanteNoOcurreLista(hs, v);
    case Or(hs) => ConstanteNoOcurreLista(hs, v);
    case Implica(p, c) => ConstanteNoOcurre(p, v); ConstanteNoOcurre(c, v);
    case ImplicadoPor(c, p) => ConstanteNoOcurre(p, v); ConstanteNoOcurre(c, v);
    case Equivale(a, b) => ConstanteNoOcurre(a, v); ConstanteNoOcurre(b, v);
  }

  lemma {:induction false} ConstanteNoOcurreLista(hs: seq<Formula>, v: bool)
    ensures !OcurreLista(Constante(v), hs)
    decreases hs, 0
  {
    if hs != [] {
      ConstanteNoOcurre(hs[0], v);
      ConstanteNoOcurreLista(hs[1..], v);
    }
  }

  /** Replacing a constant is a no-op. */
  lemma ConstanteNuncaSustituida(f: Formula, v: bool, otra: Formula)
    ensures Sustituye(f, Constante(v), otra) == f
  {
    ConstanteNoOcurre(f, v);
    SinOcurrenciaIdentica(f, Constante(v), otra);
  }

  /**
   * Substituting `g` for the variable `x`: the variables of the result are
   * those of `f` other than `x`, plus those of `g` when `x` occurred. So when
   * `g` does not mention `x`, `x` disappears.
   */
  lemma {:induction false} SustituyeVariables(f: Formula, x: string, g: Formula)
    ensures Variables(Sustituye(f, Variable(x), g)) ==
      (Variables(f) - {x}) + (if x in Variables(f) then Variables(g) else {})
    decreases f, 1
  {
    IdenticaEsIgualdad(f, Variable(x));
    match f
    case Constante(_) =>
    case Variable(_) =>
    case Not(h) => SustituyeVariables(h, x, g);
    case And(hs) => SustituyeVariablesLista(hs, x, g);
    case Or(hs) => SustituyeVariablesLista(hs, x, g);
    case Implica(p, c) => SustituyeVariables(p, x, g); SustituyeVariables(c, x, g);
    case ImplicadoPor(c, p) => SustituyeVariables(p, x, g); SustituyeVariables(c, x, g);
    case Equivale(a, b) => SustituyeVariables(a, x, g); SustituyeVariables(b, x, g);
  }

  lemma {:induction false} SustituyeVariablesLista(hs: seq<Formula>, x: string, g: Formula)
    ensures VariablesLista(SustituyeLista(hs, Variable(x), g)) ==
      (VariablesLista(hs) - {x}) + (if x in VariablesLista(hs) then Variables(g) else {})
    decreases hs, 0
  {
    if hs != [] {
      SustituyeVariables(hs[0], x, g);
      SustituyeVariablesLista(hs[1..], x, g);
      assert SustituyeLista(hs, Variable(x), g)[1..] == SustituyeLista(hs[1..], Variable(x), g);
    }
  }

  /** Substituting `g` for a variable `x` that `g` does not mention removes `x` from the variables. */
  lemma SustituyeEliminaVariable(f: Formula, x: string, g: Formula)
    requires x !in Variables(g)
    ensures x !in Variables(Sustituye(f, Variable(x), g))
    ensures Variables(Sustituye(f, Variable(x), g)) <= (Variables(f) - {x}) + Variables(g)
  {
    SustituyeVariables(f, x, g);
  }

  /**
   * The value of `f` with `g` substituted for `x` is the value of `f` once `x`
   * takes the value of `g`.
   */
  lemma {:induction false} SustituyeEvalua(f: Formula, x: string, g: Formula, m: Fila)
    requires (Variables(f) - {x}) + Variables(g) <= m.Keys
    ensures Variables(Sustituye(f, Variable(x), g)) <= m.Keys
    ensures Variables(f) <= m[x := Evaluar(g, m)].Keys
    ensures Evaluar(Sustituye(f, Variable(x), g), m) == Evaluar(f, m[x := Evaluar(g, m)])
    decreases f, 1
  {
    SustituyeVariables(f, x, g);
    IdenticaEsIgualdad(f, Variable(x));
    match f
    case Constante(_) =>
    case Variable(_) =>
    case Not(h) => SustituyeEvalua(h, x, g, m);
    case And(hs) => SustituyeEvaluaLista(hs, x, g, m);
    case Or(hs) => SustituyeEvaluaLista(hs, x, g, m);
    case Implica(p, c) => SustituyeEvalua(p, x, g, m); SustituyeEvalua(c, x, g, m);
    case ImplicadoPor(c, p) => SustituyeEvalua(p, x, g, m); SustituyeEvalua(c, x, g, m);
    case Equivale(a, b) => SustituyeEvalua(a, x, g, m); SustituyeEvalua(b, x, g, m);
  }

  lemma {:induction false} SustituyeEvaluaLista(hs: seq<Formula>, x: string, g: Formula, m: Fila)
    requires (VariablesLista(hs) - {x}) + Variables(g) <= m.Keys
    ensures VariablesLista(SustituyeLista(hs, Variable(x), g)) <= m.Keys
    ensures VariablesLista(hs) <= m[x := Evaluar(g, m)].Keys
    ensures Todas(SustituyeLista(hs, Variable(x), g), m) == Todas(hs, m[x := Evaluar(g, m)])
    ensures Alguna(SustituyeLista(hs, Variable(x), g), m) == Alguna(hs, m[x := Evaluar(g, m)])
    decreases hs, 0
  {
    SustituyeVariablesLista(hs, x, g);
    if hs != [] {
      SustituyeEvalua(hs[0], x, g, m);
      SustituyeEvaluaLista(hs[1..], x, g, m);
      assert SustituyeLista(hs, Variable(x), g)[1..] == SustituyeLista(hs[1..], Variable(x), g);
    }
  }

  /** A variable occurs where `sustituye` looks only if it is one of the formula's variables. */
  lemma {:induction false} OcurreVariable(f: Formula, x: string)
    ensures Ocurre(Variable(x), f) ==> x in Variables(f)
    decreases f, 1
  {
    match f
    case Constante(_) =>
    case Variable(_) =>
    case Not(h) => OcurreVariable(h, x);
    case And(hs) => OcurreVariableLista(hs, x);
    case Or(hs) => OcurreVariableLista(hs, x);
    case Implica(p, c) => OcurreVariable(p, x); OcurreVariable(c, x);
    case ImplicadoPor(c, p) => OcurreVariable(p, x); OcurreVariable(c, x);
    case Equivale(a, b) => OcurreVariable(a, x); OcurreVariable(b, x);
  }

  lemma {:induction false} OcurreVariableLista(hs: seq<Formula>, x: string)
    ensures OcurreLista(Variable(x), hs) ==> x in VariablesLista(hs)
    decreases hs, 0
  {
    if hs != [] {
      OcurreVariable(hs[0], x);
      OcurreVariableLista(hs[1..], x);
    }
  }

  // ---------------------------------------------------------------------------
  // Arguments
  // ---------------------------------------------------------------------------

  /** `Razonamiento`: premises and the conclusion to be drawn from them. */
  datatype Razonamiento = Razonamiento(premisas: seq<Formula>, conclusion: Formula)

  /** Converts every value with `_crea_proposicion`; None if any of them cannot be converted. */
  function CreaProposiciones(vs: seq<Valor>): (r: Option<seq<Formula>>)
    ensures r.None? <==> exists i :: 0 <= i < |vs| && vs[i].Otro?
    ensures r.Some? ==> |r.value| == |vs| && forall i :: 0 <= i < |vs| ==> Some(r.value[i]) == CreaProposicion(vs[i])
    decreases |vs|
  {
    if vs == [] then Some([])
    else
      match (CreaProposicion(vs[0]), CreaProposiciones(vs[1..]))
      case (Some(f), Some(fs)) => Some([f] + fs)
      case _ => None
  }

  /** The constructor of `Razonamiento`: premises and conclusion become propositions, or the construction fails. */
  function CreaRazonamiento(premisas: seq<Valor>, conclusion: Valor): (r: Option<Razonamiento>)
    ensures r.None? <==> conclusion.Otro? || exists i :: 0 <= i < |premisas| && premisas[i].Otro?
    ensures r.Some? ==> Some(r.value.conclusion) == CreaProposicion(conclusion) && |r.value.premisas| == |premisas|
  {
    match (CreaProposiciones(premisas), CreaProposicion(conclusion))
    case (Some(ps), Some(c)) => Some(Razonamiento(ps, c))
    case _ => None
  }

  /** `Razonamiento.variables()`: the variables of the premises and of the conclusion. */
  function VariablesRazonamiento(r: Razonamiento): set<string>
  {
    VariablesLista(r.premisas) + Variables(r.conclusion)
  }

  /** `es_valido`: the conclusion is true on every row of the table on which all the premises are true. */
  ghost predicate EsValido(r: Razonamiento)
  {
    var t := Filas(Orden(VariablesRazonamiento(r)));
    forall i :: 0 <= i < |t| ==> Todas(r.premisas, t[i]) ==> Evaluar(r.conclusion, t[i])
  }

  /** An argument is valid exactly when its premises entail its conclusion: every assignment satisfying them all satisfies it. */
  lemma ValidoSemantico(r: Razonamiento)
    ensures EsValido(r) <==>
      forall m: Fila :: VariablesRazonamiento(r) <= m.Keys ==> Todas(r.premisas, m) ==> Evaluar(r.conclusion, m)
  {
    CiertaEnFilas(Implica(And(r.premisas), r.conclusion), Orden(VariablesRazonamiento(r)));
  }

  /** Without premises, an argument is valid exactly when its conclusion is a tautology. */
  lemma SinPremisasEsTautologia(c: Formula)
    ensures EsValido(Razonamiento([], c)) <==> EsTautologia(c)
  {
    ValidoSemantico(Razonamiento([], c));
    TautologiaSemantica(c);
  }

  /** `Razonamiento.sustituye`: the substitution applied to every premise and to the conclusion. */
  function SustituyeRazonamiento(r: Razonamiento, una: Formula, otra: Formula): Razonamiento
  {
    Razonamiento(SustituyeLista(r.premisas, una, otra), Sustituye(r.conclusion, una, otra))
  }

  /** Substituting a formula for a variable throughout a valid argument leaves it valid. */
  lemma SustitucionPreservaValidez(r: Razonamiento, x: string, g: Formula)
    requires EsValido(r)
    ensures EsValido(SustituyeRazonamiento(r, Variable(x), g))
  {
    var r' := SustituyeRazonamiento(r, Variable(x), g);
    ValidoSemantico(r);
    ValidoSemantico(r');
    if x in VariablesRazonamiento(r) {
      forall m: Fila | VariablesRazonamiento(r') <= m.Keys
        ensures Todas(r'.premisas, m) ==> Evaluar(r'.conclusion, m)
      {
        SustitucionEnFila(r, x, g, m);
      }
    } else {
      SustitucionSinOcurrencia(r, x, g);
    }
  }

  /** On one assignment, the substituted argument behaves as the original on the assignment that gives `x` the value of `g`. */
  lemma SustitucionEnFila(r: Razonamiento, x: string, g: Formula, m: Fila)
    requires forall m0: Fila :: VariablesRazonamiento(r) <= m0.Keys ==> Todas(r.premisas, m0) ==> Evaluar(r.conclusion, m0)
    requires x in VariablesRazonamiento(r)
    requires VariablesRazonamiento(SustituyeRazonamiento(r, Variable(x), g)) <= m.Keys
    ensures var r' := SustituyeRazonamiento(r, Variable(x), g);
      Todas(r'.premisas, m) ==> Evaluar(r'.conclusion, m)
  {
    SustituyeVariablesLista(r.premisas, x, g);
    SustituyeVariables(r.conclusion, x, g);
    assert Variables(g) <= m.Keys;
    SustituyeEvaluaLista(r.premisas, x, g, m);
    SustituyeEvalua(r.conclusion, x, g, m);
    assert VariablesRazonamiento(r) <= m[x := Evaluar(g, m)].Keys;
  }

  /** Substituting for a variable an argument does not mention leaves it as it is. */
  lemma SustitucionSinOcurrencia(r: Razonamiento, x: string, g: Formula)
    requires x !in VariablesRazonamiento(r)
    ensures SustituyeRazonamiento(r, Variable(x), g) == r
  {
    OcurreVariableLista(r.premisas, x);
    OcurreVariable(r.conclusion, x);
    SinOcurrenciaLista(r.premisas, Variable(x), g);
    SinOcurrenciaIdentica(r.conclusion, Variable(x), g);
  }

  /** `P >> Q, Q >> R` entail `P >> R`. */
  lemma DemoRazonamiento()
    ensures EsValido(Razonamiento([Implica(Variable("P"), Variable("Q")), Implica(Variable("Q"), Variable("R"))],
                                  Implica(Variable("P"), Variable("R"))))
  {
    var r := Razonamiento([Implica(Variable("P"), Variable("Q")), Implica(Variable("Q"), Variable("R"))],
                          Implica(Variable("P"), Variable("R")));
    ValidoSemantico(r);
    forall m: Fila | VariablesRazonamiento(r) <= m.Keys
      ensures Todas(r.premisas, m) ==> Evaluar(r.conclusion, m)
    {
      assert r.premisas[1..] == [Implica(Variable("Q"), Variable("R"))];
      assert r.premisas[1..][1..] == [];
    }
  }
}
