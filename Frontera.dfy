/**
 * What the frontier searches of `busqueda/noinformada.py` and
 * `busqueda/informada.py` share: what a search may conclude about a problem,
 * the bookkeeping of a frontier (a list of arena indices) and an explored
 * set (a set of state names), and the stable sort by a key that
 * `coste_uniforme` and `sma_estrella` apply to the frontier.
 */
module Frontera {
  import opened Tipos
  import opened Grafos
  import opened Espacio

  // ---------------------------------------------------------------------------
  // What a search may conclude
  // ---------------------------------------------------------------------------

  /** No walk through the table from the initial state meets a goal. */
  ghost predicate SinSolucion(p: Problema)
  {
    forall ss :: Camino(p, ss) && ss != [] && ss[0] == p.estadoInicial ==>
      forall i :: 0 <= i < |ss| ==> !EsObjetivo(p, ss[i])
  }

  /** A goal node on a chain from a root at the initial state shows a solution exists. */
  lemma SolucionAlcanza(p: Problema, nodos: seq<Nodo>, raiz: nat, j: nat)
    requires Arena(nodos) && Solucion(p, nodos, raiz, j) && nodos[raiz].estado == p.estadoInicial
    requires EsObjetivo(p, nodos[j].estado)
    ensures !SinSolucion(p)
  {
    var ss := Cadena(nodos, j);
    assert ss[|ss| - 1] == nodos[j].estado;
  }

  /** An explored set closed under the table, holding the initial state and no goal, shows there is no solution. */
  lemma CerradoSinSolucion(p: Problema, e: set<string>)
    requires Cerrado(p, e) && p.estadoInicial in e && forall s :: s in e ==> !EsObjetivo(p, s)
    ensures SinSolucion(p)
  {
    forall ss | Camino(p, ss) && ss != [] && ss[0] == p.estadoInicial
      ensures forall i :: 0 <= i < |ss| ==> !EsObjetivo(p, ss[i])
    {
      SinSalida(p, e, ss);
    }
  }

  // ---------------------------------------------------------------------------
  // The bookkeeping of the frontier searches
  // ---------------------------------------------------------------------------

  /**
   * The frontier `fr` holds nodes of the tree rooted at `raiz` (a node for
   * the initial state), whose states are pairwise distinct and unexplored.
   */
  ghost predicate Registro(p: Problema, nodos: seq<Nodo>, raiz: nat, fr: seq<nat>, e: set<string>)
  {
    Buenos(p, nodos) && raiz < |nodos| && nodos[raiz].estado == p.estadoInicial && nodos[raiz].padre.None?
    && nodos[raiz].coste == 0
    && EnRango(nodos, fr) && DeRaiz(nodos, fr, raiz) && Distintos(EstadosDe(nodos, fr))
    && (forall k :: 0 <= k < |fr| ==> nodos[fr[k]].estado !in e)
    && e <= Estados(p)
  }

  /** Every action of an explored state leads to an explored state or to a frontier state, except actions `desde..` of `s`. */
  ghost predicate CubreSalvo(p: Problema, e: set<string>, fe: seq<string>, s: string, desde: nat)
  {
    forall x, k :: x in e && 0 <= k < |FilaDe(p, x)| && (x != s || k < desde) ==>
      FilaDe(p, x)[k].1 in e || FilaDe(p, x)[k].1 in fe
  }

  /** Every action of an explored state leads to an explored state or to a frontier state. */
  ghost predicate Cubre(p: Problema, e: set<string>, fe: seq<string>)
  {
    forall x, k :: x in e && 0 <= k < |FilaDe(p, x)| ==> FilaDe(p, x)[k].1 in e || FilaDe(p, x)[k].1 in fe
  }

  /** No goal among the explored states nor in the frontier. */
  ghost predicate Limpio(p: Problema, e: set<string>, fe: seq<string>)
  {
    (forall x :: x in e ==> !EsObjetivo(p, x)) && forall k :: 0 <= k < |fe| ==> !EsObjetivo(p, fe[k])
  }

  /** A goal node in the tree of a root at the initial state is a solution, so one exists. */
  lemma Encontrado(p: Problema, nodos: seq<Nodo>, raiz: nat, j: nat)
    requires Buenos(p, nodos) && j < |nodos| && raiz < |nodos| && Raiz(nodos, j) == raiz
    requires nodos[raiz].estado == p.estadoInicial && EsObjetivo(p, nodos[j].estado)
    ensures Solucion(p, nodos, raiz, j) && !SinSolucion(p)
  {
    EsSolucion(p, nodos, raiz, j);
    SolucionAlcanza(p, nodos, raiz, j);
  }

  /** The frontier grows only by a node for a new, unexplored state. */
  lemma RegistroAmplia(p: Problema, nodos: seq<Nodo>, raiz: nat, fr: seq<nat>, e: set<string>, h: nat)
    requires Registro(p, nodos, raiz, fr, e) && h < |nodos| && Raiz(nodos, h) == raiz
    requires nodos[h].estado !in e && nodos[h].estado !in EstadosDe(nodos, fr)
    ensures Registro(p, nodos, raiz, fr + [h], e) && EstadosDe(nodos, fr + [h]) == EstadosDe(nodos, fr) + [nodos[h].estado]
  {
    var fe := EstadosDe(nodos, fr);
    var fe' := EstadosDe(nodos, fr + [h]);
    assert fe' == fe + [nodos[h].estado];
  }

  /** Growing the tree keeps the bookkeeping and the frontier's states. */
  lemma RegistroCrece(p: Problema, viejos: seq<Nodo>, nuevos: seq<Nodo>, raiz: nat, fr: seq<nat>, e: set<string>)
    requires Registro(p, viejos, raiz, fr, e) && Buenos(p, nuevos) && Crece(viejos, nuevos)
    ensures Registro(p, nuevos, raiz, fr, e) && EstadosDe(nuevos, fr) == EstadosDe(viejos, fr)
    ensures Raiz(nuevos, raiz) == raiz
  {
    EstadosDeCrece(viejos, nuevos, fr);
    DeRaizCrece(p, viejos, nuevos, fr, raiz);
    CreceEstable(p, viejos, nuevos, raiz);
  }

  /** Taking the node at position `k` out of the frontier and exploring its state. */
  lemma RegistroSaca(p: Problema, nodos: seq<Nodo>, raiz: nat, fr: seq<nat>, e: set<string>, k: nat)
    requires Registro(p, nodos, raiz, fr, e) && k < |fr|
    ensures var x := nodos[fr[k]].estado;
      var resto := fr[..k] + fr[k + 1..];
      Registro(p, nodos, raiz, resto, e + {x}) && x !in e && x in Estados(p)
      && EstadosDe(nodos, resto) == EstadosDe(nodos, fr)[..k] + EstadosDe(nodos, fr)[k + 1..]
      && Raiz(nodos, fr[k]) == raiz
  {
    var x := nodos[fr[k]].estado;
    var resto := fr[..k] + fr[k + 1..];
    var fe := EstadosDe(nodos, fr);
    var fe' := EstadosDe(nodos, resto);
    assert fe' == fe[..k] + fe[k + 1..];
    assert NodoBueno(p, nodos, fr[k]);
    forall i | 0 <= i < |resto| ensures nodos[resto[i]].estado != x {
      if i < k {
        assert fe[i] != fe[k];
      } else {
        assert resto[i] == fr[i + 1] && fe[i + 1] != fe[k];
      }
    }
  }

  /** Exploring the `k`-th frontier state moves it from the frontier to the explored set without breaking the cover. */
  lemma CubreSaca(p: Problema, e: set<string>, fe: seq<string>, k: nat)
    requires Cubre(p, e, fe) && k < |fe|
    ensures CubreSalvo(p, e + {fe[k]}, fe[..k] + fe[k + 1..], fe[k], 0)
  {
    var resto := fe[..k] + fe[k + 1..];
    forall x, j | x in e + {fe[k]} && 0 <= j < |FilaDe(p, x)| && (x != fe[k] || j < 0)
      ensures FilaDe(p, x)[j].1 in e + {fe[k]} || FilaDe(p, x)[j].1 in resto
    {
      var y := FilaDe(p, x)[j].1;
      if y !in e && y != fe[k] {
        var i :| 0 <= i < |fe| && fe[i] == y;
        if i < k {
          assert resto[i] == y;
        } else {
          assert resto[i - 1] == y;
        }
      }
    }
  }

  /** Once every action of `s` is accounted for, the cover has no exception. */
  lemma CubreCompleto(p: Problema, e: set<string>, fe: seq<string>, s: string)
    requires CubreSalvo(p, e, fe, s, |FilaDe(p, s)|)
    ensures Cubre(p, e, fe)
  {
  }

  /** A state without actions needs no exception in the cover. */
  lemma CubreSinAcciones(p: Problema, e: set<string>, fe: seq<string>, s: string)
    requires CubreSalvo(p, e, fe, s, 0) && FilaDe(p, s) == []
    ensures Cubre(p, e, fe)
  {
  }

  /** A cover survives the frontier growing. */
  lemma CubreAmplia(p: Problema, e: set<string>, fe: seq<string>, y: string, s: string, desde: nat)
    requires CubreSalvo(p, e, fe, s, desde)
    ensures CubreSalvo(p, e, fe + [y], s, desde)
  {
    forall x, k | x in e && 0 <= k < |FilaDe(p, x)| && (x != s || k < desde)
      ensures FilaDe(p, x)[k].1 in e || FilaDe(p, x)[k].1 in fe + [y]
    {
      if FilaDe(p, x)[k].1 !in e {
        var i :| 0 <= i < |fe| && fe[i] == FilaDe(p, x)[k].1;
        assert (fe + [y])[i] == fe[i];
      }
    }
  }

  /** Once the `k`-th action of `s` leads to an explored or a frontier state, the exception shrinks. */
  lemma CubreSigue(p: Problema, e: set<string>, fe: seq<string>, s: string, k: nat)
    requires CubreSalvo(p, e, fe, s, k) && k < |FilaDe(p, s)|
    requires FilaDe(p, s)[k].1 in e || FilaDe(p, s)[k].1 in fe
    ensures CubreSalvo(p, e, fe, s, k + 1)
  {
  }

  /**
   * Appending a node for a new state that is not a goal, reached by the
   * `k`-th action of `s`, keeps the bookkeeping and shrinks the exception.
   */
  lemma AmpliaSigue(p: Problema, nodos: seq<Nodo>, raiz: nat, fr: seq<nat>, e: set<string>, s: string, k: nat, h: nat)
    requires Registro(p, nodos, raiz, fr, e) && h < |nodos| && Raiz(nodos, h) == raiz
    requires CubreSalvo(p, e, EstadosDe(nodos, fr), s, k) && Limpio(p, e, EstadosDe(nodos, fr))
    requires k < |FilaDe(p, s)| && FilaDe(p, s)[k].1 == nodos[h].estado
    requires nodos[h].estado !in e && nodos[h].estado !in EstadosDe(nodos, fr) && !EsObjetivo(p, nodos[h].estado)
    ensures Registro(p, nodos, raiz, fr + [h], e)
    ensures CubreSalvo(p, e, EstadosDe(nodos, fr + [h]), s, k + 1) && Limpio(p, e, EstadosDe(nodos, fr + [h]))
  {
    var fe := EstadosDe(nodos, fr);
    var y := nodos[h].estado;
    RegistroAmplia(p, nodos, raiz, fr, e, h);
    CubreAmplia(p, e, fe, y, s, k);
    LimpioAmplia(p, e, fe, y);
    CubreSigue(p, e, fe + [y], s, k);
  }

  /** A frontier state that is not a goal keeps goals out of sight. */
  lemma LimpioAmplia(p: Problema, e: set<string>, fe: seq<string>, y: string)
    requires Limpio(p, e, fe) && !EsObjetivo(p, y)
    ensures Limpio(p, e, fe + [y])
  {
    forall k | 0 <= k < |fe + [y]| ensures !EsObjetivo(p, (fe + [y])[k]) {
      if k < |fe| {
        assert (fe + [y])[k] == fe[k];
      }
    }
  }

  /** With an empty frontier, a cover is a closed set. */
  lemma CubreVacio(p: Problema, e: set<string>)
    requires Cubre(p, e, [])
    ensures Cerrado(p, e)
  {
  }

  /** The `k`-th action of a node's row leads where `resultado` says. */
  lemma AccionDeNodo(p: Problema, nodos: seq<Nodo>, j: nat, k: nat)
    requires Buenos(p, nodos) && j < |nodos| && k < |nodos[j].acciones|
    ensures nodos[j].acciones == FilaDe(p, nodos[j].estado)
    ensures Resultado(p, nodos[j].estado, nodos[j].acciones[k].0) == Some(nodos[j].acciones[k].1)
  {
    assert NodoBueno(p, nodos, j);
  }

  /**
   * Taking the `k`-th state out of the frontier and exploring it keeps the
   * cover (now excepting that state's actions) and keeps goals out of sight.
   */
  lemma SacaCubre(p: Problema, e: set<string>, fe: seq<string>, k: nat)
    requires k < |fe| && Cubre(p, e, fe) && Limpio(p, e, fe)
    ensures var resto := fe[..k] + fe[k + 1..];
      CubreSalvo(p, e + {fe[k]}, resto, fe[k], 0) && Limpio(p, e + {fe[k]}, resto)
  {
    var resto := fe[..k] + fe[k + 1..];
    CubreSaca(p, e, fe, k);
    forall j | 0 <= j < |resto| ensures !EsObjetivo(p, resto[j]) {
      if j < k {
        assert resto[j] == fe[j];
      } else {
        assert resto[j] == fe[j + 1];
      }
    }
  }

  // ---------------------------------------------------------------------------
  // The stable sort of a frontier (`frontera.sort(key=...)`, `sorted(...)`)
  // ---------------------------------------------------------------------------

  /** Python's comparison of integer lists: lexicographic, a proper prefix first. */
  predicate LexMenorIgual(a: seq<int>, b: seq<int>)
    decreases |a|
  {
    a == [] || (b != [] && (a[0] < b[0] || (a[0] == b[0] && LexMenorIgual(a[1..], b[1..]))))
  }

  lemma {:induction false} LexTotal(a: seq<int>, b: seq<int>)
    ensures LexMenorIgual(a, b) || LexMenorIgual(b, a)
    decreases |a|
  {
    if a != [] && b != [] && a[0] == b[0] {
      LexTotal(a[1..], b[1..]);
    }
  }

  lemma {:induction false} LexTransitivo(a: seq<int>, b: seq<int>, c: seq<int>)
    requires LexMenorIgual(a, b) && LexMenorIgual(b, c)
    ensures LexMenorIgual(a, c)
    decreases |a|
  {
    if a != [] && a[0] == b[0] && b[0] == c[0] {
      LexTransitivo(a[1..], b[1..], c[1..]);
    }
  }

  /** The sort key: `nodo.coste` in `coste_uniforme`, the list of `valores` per goal in `sma_estrella`. */
  datatype Orden = PorCoste | PorValores(objetivos: seq<string>)

  /** The key of node `x` (0 where a `valores` lookup would fail; the searches require that it does not). */
  function ClaveDe(nodos: seq<Nodo>, o: Orden, x: nat): seq<int>
    requires x < |nodos|
  {
    match o
    case PorCoste => [nodos[x].coste]
    case PorValores(gs) =>
      seq(|gs|, k requires 0 <= k < |gs| =>
        if Nombre(gs[k]) in nodos[x].valores then nodos[x].valores[Nombre(gs[k])] else 0)
  }

  /** By cost, the key order is the order of the costs. */
  lemma PorCosteMenorIgual(nodos: seq<Nodo>, x: nat, y: nat)
    requires x < |nodos| && y < |nodos|
    ensures LexMenorIgual(ClaveDe(nodos, PorCoste, x), ClaveDe(nodos, PorCoste, y)) <==> nodos[x].coste <= nodos[y].coste
  {
    var a := ClaveDe(nodos, PorCoste, x);
    var b := ClaveDe(nodos, PorCoste, y);
    assert a[1..] == [] && b[1..] == [];
  }

  /** The frontier is sorted by the key. */
  predicate Ordenada(nodos: seq<Nodo>, o: Orden, fr: seq<nat>)
    requires EnRango(nodos, fr)
  {
    forall i, j :: 0 <= i < j < |fr| ==> LexMenorIgual(ClaveDe(nodos, o, fr[i]), ClaveDe(nodos, o, fr[j]))
  }

  /** `x` goes before the first node whose key is not smaller, so it stays ahead of the nodes with an equal key. */
  function Inserta(nodos: seq<Nodo>, o: Orden, x: nat, fr: seq<nat>): (r: seq<nat>)
    requires x < |nodos| && EnRango(nodos, fr)
    ensures EnRango(nodos, r) && multiset(r) == multiset(fr) + multiset{x}
  {
    if fr == [] then [x]
    else if LexMenorIgual(ClaveDe(nodos, o, x), ClaveDe(nodos, o, fr[0])) then [x] + fr
    else
      var r := [fr[0]] + Inserta(nodos, o, x, fr[1..]);
      assert fr == [fr[0]] + fr[1..];
      r
  }

  /** The stable insertion sort: the result of any stable sort by the key, as Python's sorts are. */
  function Ordena(nodos: seq<Nodo>, o: Orden, fr: seq<nat>): (r: seq<nat>)
    requires EnRango(nodos, fr)
    ensures EnRango(nodos, r) && multiset(r) == multiset(fr)
  {
    if fr == [] then []
    else
      var x, resto := fr[0], fr[1..];
      assert fr == [x] + resto && x < |nodos|;
      assert EnRango(nodos, resto) by {
        forall k | 0 <= k < |resto| ensures resto[k] < |nodos| {
          assert resto[k] == fr[k + 1];
        }
      }
      Inserta(nodos, o, x, Ordena(nodos, o, resto))
  }

  /** A node no greater than every node of a sorted frontier heads a sorted frontier. */
  lemma DelanteOrdenada(nodos: seq<Nodo>, o: Orden, x: nat, fr: seq<nat>)
    requires x < |nodos| && EnRango(nodos, fr) && Ordenada(nodos, o, fr)
    requires forall k :: 0 <= k < |fr| ==> LexMenorIgual(ClaveDe(nodos, o, x), ClaveDe(nodos, o, fr[k]))
    ensures Ordenada(nodos, o, [x] + fr)
  {
    var r := [x] + fr;
    forall i, j | 0 <= i < j < |r| ensures LexMenorIgual(ClaveDe(nodos, o, r[i]), ClaveDe(nodos, o, r[j])) {
      assert r[j] == fr[j - 1];
      if i > 0 {
        assert r[i] == fr[i - 1];
      }
    }
  }

  lemma {:induction false} InsertaOrdenada(nodos: seq<Nodo>, o: Orden, x: nat, fr: seq<nat>)
    requires x < |nodos| && EnRango(nodos, fr) && Ordenada(nodos, o, fr)
    ensures Ordenada(nodos, o, Inserta(nodos, o, x, fr))
    decreases |fr|
  {
    if fr == [] {
    } else if LexMenorIgual(ClaveDe(nodos, o, x), ClaveDe(nodos, o, fr[0])) {
      forall k | 0 <= k < |fr| ensures LexMenorIgual(ClaveDe(nodos, o, x), ClaveDe(nodos, o, fr[k])) {
        if k > 0 {
          LexTransitivo(ClaveDe(nodos, o, x), ClaveDe(nodos, o, fr[0]), ClaveDe(nodos, o, fr[k]));
        }
      }
      DelanteOrdenada(nodos, o, x, fr);
    } else {
      var resto := fr[1..];
      var m := Inserta(nodos, o, x, resto);
      InsertaOrdenada(nodos, o, x, resto);
      LexTotal(ClaveDe(nodos, o, x), ClaveDe(nodos, o, fr[0]));
      forall k | 0 <= k < |m| ensures LexMenorIgual(ClaveDe(nodos, o, fr[0]), ClaveDe(nodos, o, m[k])) {
        assert m[k] in multiset(resto) + multiset{x};
        if m[k] != x {
          var i :| 0 <= i < |resto| && resto[i] == m[k];
          assert fr[i + 1] == m[k];
        }
      }
      DelanteOrdenada(nodos, o, fr[0], m);
    }
  }

  /** `Ordena` sorts by the key and keeps exactly the nodes it was given. */
  lemma {:induction false} OrdenaOrdenada(nodos: seq<Nodo>, o: Orden, fr: seq<nat>)
    requires EnRango(nodos, fr)
    ensures Ordenada(nodos, o, Ordena(nodos, o, fr)) && multiset(Ordena(nodos, o, fr)) == multiset(fr)
    decreases |fr|
  {
    if fr != [] {
      OrdenaOrdenada(nodos, o, fr[1..]);
      InsertaOrdenada(nodos, o, fr[0], Ordena(nodos, o, fr[1..]));
    }
  }

  /** `a` is listed before `b` in `s`. */
  predicate Precede(s: seq<nat>, a: nat, b: nat)
  {
    exists p, q :: 0 <= p < q < |s| && s[p] == a && s[q] == b
  }

  /** Inserting `x` puts it ahead of every node already present with the same key. */
  lemma {:induction false} InsertaDelante(nodos: seq<Nodo>, o: Orden, x: nat, y: nat, s: seq<nat>)
    requires x < |nodos| && EnRango(nodos, s) && y in s
    requires y < |nodos| && ClaveDe(nodos, o, x) == ClaveDe(nodos, o, y)
    ensures Precede(Inserta(nodos, o, x, s), x, y)
    decreases |s|
  {
    var r := Inserta(nodos, o, x, s);
    if LexMenorIgual(ClaveDe(nodos, o, x), ClaveDe(nodos, o, s[0])) {
      var q :| 0 <= q < |s| && s[q] == y;
      assert r[0] == x && r[q + 1] == y;
    } else {
      LexTotal(ClaveDe(nodos, o, y), ClaveDe(nodos, o, y));
      assert s == [s[0]] + s[1..];
      assert y in s[1..];
      var m := Inserta(nodos, o, x, s[1..]);
      InsertaDelante(nodos, o, x, y, s[1..]);
      var p, q :| 0 <= p < q < |m| && m[p] == x && m[q] == y;
      assert r[p + 1] == x && r[q + 1] == y;
    }
  }

  /** A node put in front keeps the order of the others. */
  lemma PrecedeDelante(y: nat, s: seq<nat>, a: nat, b: nat)
    requires Precede(s, a, b)
    ensures Precede([y] + s, a, b)
  {
    var p, q :| 0 <= p < q < |s| && s[p] == a && s[q] == b;
    assert ([y] + s)[p + 1] == a && ([y] + s)[q + 1] == b;
  }

  /** A node put in front precedes every node of the rest. */
  lemma PrecedeCabeza(a: nat, s: seq<nat>, b: nat)
    requires b in s
    ensures Precede([a] + s, a, b)
  {
    var q :| 0 <= q < |s| && s[q] == b;
    assert ([a] + s)[0] == a && ([a] + s)[q + 1] == b;
  }

  /** Inserting a node keeps the order of the nodes already present. */
  lemma {:induction false} InsertaConserva(nodos: seq<Nodo>, o: Orden, x: nat, a: nat, b: nat, s: seq<nat>)
    requires x < |nodos| && EnRango(nodos, s) && Precede(s, a, b)
    ensures Precede(Inserta(nodos, o, x, s), a, b)
    decreases |s|
  {
    var r := Inserta(nodos, o, x, s);
    var p, q :| 0 <= p < q < |s| && s[p] == a && s[q] == b;
    if LexMenorIgual(ClaveDe(nodos, o, x), ClaveDe(nodos, o, s[0])) {
      assert r == [x] + s;
      PrecedeDelante(x, s, a, b);
    } else {
      var resto := s[1..];
      var m := Inserta(nodos, o, x, resto);
      assert r == [s[0]] + m;
      if p == 0 {
        assert resto[q - 1] == b;
        assert b in multiset(m);
        PrecedeCabeza(a, m, b);
      } else {
        assert resto[p - 1] == a && resto[q - 1] == b;
        InsertaConserva(nodos, o, x, a, b, resto);
        PrecedeDelante(s[0], m, a, b);
      }
    }
  }

  /**
   * `Ordena` is stable: of two frontier nodes with the same key, the earlier one
   * stays ahead. With `OrdenaOrdenada` this pins `Ordena` down as the result
   * of Python's stable sort.
   */
  lemma {:induction false} OrdenaEstable(nodos: seq<Nodo>, o: Orden, fr: seq<nat>, i: nat, j: nat)
    requires EnRango(nodos, fr) && i < j < |fr|
    requires ClaveDe(nodos, o, fr[i]) == ClaveDe(nodos, o, fr[j])
    ensures Precede(Ordena(nodos, o, fr), fr[i], fr[j])
    decreases |fr|
  {
    var resto := fr[1..];
    assert fr == [fr[0]] + resto;
    assert EnRango(nodos, resto) by {
      forall k | 0 <= k < |resto| ensures resto[k] < |nodos| {
        assert resto[k] == fr[k + 1];
      }
    }
    var s := Ordena(nodos, o, resto);
    assert resto[j - 1] == fr[j];
    if i == 0 {
      assert fr[j] in multiset(resto);
      InsertaDelante(nodos, o, fr[0], fr[j], s);
    } else {
      assert resto[i - 1] == fr[i];
      OrdenaEstable(nodos, o, resto, i - 1, j - 1);
      InsertaConserva(nodos, o, fr[0], fr[i], fr[j], s);
    }
  }

  /** A node listed twice is counted twice. */
  lemma DosVeces(xs: seq<nat>, i: nat, j: nat)
    requires i < j < |xs| && xs[i] == xs[j]
    ensures multiset(xs)[xs[i]] >= 2
  {
    assert xs == xs[..j] + [xs[j]] + xs[j + 1..];
    assert xs[i] in xs[..j];
  }

  /** A node counted twice is listed at two positions. */
  lemma DosPosiciones(xs: seq<nat>, x: nat) returns (i: nat, j: nat)
    requires multiset(xs)[x] >= 2
    ensures i < j < |xs| && xs[i] == x && xs[j] == x
  {
    i :| 0 <= i < |xs| && xs[i] == x;
    assert xs == xs[..i] + [x] + xs[i + 1..];
    var resto := xs[..i] + xs[i + 1..];
    assert multiset(resto)[x] >= 1;
    var k :| 0 <= k < |resto| && resto[k] == x;
    if k < i {
      j := i;
      i := k;
    } else {
      j := k + 1;
    }
  }

  /** Distinct states mean no node is listed twice. */
  lemma SinRepetir(nodos: seq<Nodo>, fr: seq<nat>, x: nat)
    requires EnRango(nodos, fr) && Distintos(EstadosDe(nodos, fr))
    ensures multiset(fr)[x] <= 1
  {
    if multiset(fr)[x] >= 2 {
      var i, j := DosPosiciones(fr, x);
      assert false;
    }
  }

  /** Two different nodes of a frontier with distinct states have different states. */
  lemma OtroEstado(nodos: seq<Nodo>, fr: seq<nat>, u: nat, v: nat)
    requires EnRango(nodos, fr) && Distintos(EstadosDe(nodos, fr)) && u in fr && v in fr && u != v
    ensures nodos[u].estado != nodos[v].estado
  {
    var i :| 0 <= i < |fr| && fr[i] == u;
    var j :| 0 <= j < |fr| && fr[j] == v;
    var fe := EstadosDe(nodos, fr);
    if i < j {
      assert fe[i] != fe[j];
    } else {
      assert fe[j] != fe[i];
    }
  }

  /** Reordering a frontier keeps its nodes and the set of its states. */
  lemma PermutaEstados(nodos: seq<Nodo>, a: seq<nat>, b: seq<nat>)
    requires EnRango(nodos, a) && multiset(a) == multiset(b)
    ensures EnRango(nodos, b) && (forall k :: 0 <= k < |b| ==> b[k] in a)
    ensures forall y :: y in EstadosDe(nodos, a) <==> y in EstadosDe(nodos, b)
  {
    forall k | 0 <= k < |b| ensures b[k] in a {
      assert b[k] in multiset(b);
    }
    forall k | 0 <= k < |a| ensures a[k] in b {
      assert a[k] in multiset(a);
    }
    var fa := EstadosDe(nodos, a);
    var fb := EstadosDe(nodos, b);
    forall y ensures y in fa <==> y in fb {
      if y in fa {
        var i :| 0 <= i < |fa| && fa[i] == y;
        var j :| 0 <= j < |b| && b[j] == a[i];
        assert fb[j] == y;
      }
      if y in fb {
        var i :| 0 <= i < |fb| && fb[i] == y;
        var j :| 0 <= j < |a| && a[j] == b[i];
        assert fa[j] == y;
      }
    }
  }

  /**
   * Reordering a frontier keeps its bookkeeping and the set of its states:
   * the states stay pairwise distinct and unexplored.
   */
  lemma RegistroPermuta(p: Problema, nodos: seq<Nodo>, raiz: nat, a: seq<nat>, b: seq<nat>, e: set<string>)
    requires Registro(p, nodos, raiz, a, e) && multiset(a) == multiset(b)
    ensures Registro(p, nodos, raiz, b, e)
    ensures forall y :: y in EstadosDe(nodos, a) <==> y in EstadosDe(nodos, b)
  {
    PermutaEstados(nodos, a, b);
    var fb := EstadosDe(nodos, b);
    forall i, j | 0 <= i < j < |fb| ensures fb[i] != fb[j] {
      if b[i] == b[j] {
        DosVeces(b, i, j);
        SinRepetir(nodos, a, b[i]);
        assert false;
      } else {
        OtroEstado(nodos, a, b[i], b[j]);
      }
    }
    forall k | 0 <= k < |b| ensures Raiz(nodos, b[k]) == raiz && nodos[b[k]].estado !in e {
      var i :| 0 <= i < |a| && a[i] == b[k];
    }
  }

  // ---------------------------------------------------------------------------
  // Replacing a frontier node by a better one for the same state
  // ---------------------------------------------------------------------------

  /**
   * `frontera.index(buscar[0])` for `buscar = [n for n in frontera if
   * n.estado == estado]`: the position of the first frontier node for the
   * state, None when there is none.
   */
  function PrimeroCon(nodos: seq<Nodo>, fr: seq<nat>, estado: string): (r: Option<nat>)
    requires EnRango(nodos, fr)
    ensures r.Some? ==> r.value < |fr| && nodos[fr[r.value]].estado == estado
                        && forall k :: 0 <= k < r.value ==> nodos[fr[k]].estado != estado
    ensures r.None? <==> estado !in EstadosDe(nodos, fr)
    decreases |fr|
  {
    if fr == [] then None
    else if nodos[fr[0]].estado == estado then Some(0)
    else
      var r := PrimeroCon(nodos, fr[1..], estado);
      assert EstadosDe(nodos, fr) == [nodos[fr[0]].estado] + EstadosDe(nodos, fr[1..]);
      if r.None? then None else Some(r.value + 1)
  }

  /**
   * What a replacement compares: `coste` in `coste_uniforme`, the least
   * heuristic over the goals in `voraz`, the least `valores` entry over the
   * goals in `a_estrella` and `sma_estrella`.
   */
  datatype Criterio = MenorCoste | MenorHeuristica(objetivos: seq<string>) | MenorValor(objetivos: seq<string>)

  /** The least of a non-empty list (`min`). */
  function Minimo(xs: seq<int>): (r: int)
    requires xs != []
    ensures (exists k :: 0 <= k < |xs| && xs[k] == r) && forall k :: 0 <= k < |xs| ==> r <= xs[k]
  {
    if |xs| == 1 then xs[0]
    else
      var m := Minimo(xs[1..]);
      assert forall k :: 1 <= k < |xs| ==> xs[k] == xs[1..][k - 1];
      if xs[0] <= m then xs[0] else m
  }

  /** The list of a node's entries per goal in a table (0 where a lookup would fail; the searches require that it does not). */
  function PorObjetivo(tabla: map<Clave, int>, gs: seq<string>): (r: seq<int>)
    ensures |r| == |gs|
  {
    seq(|gs|, k requires 0 <= k < |gs| => if Nombre(gs[k]) in tabla then tabla[Nombre(gs[k])] else 0)
  }

  /** The quantity a replacement compares for node `x`. */
  function Valoracion(nodos: seq<Nodo>, c: Criterio, x: nat): int
    requires x < |nodos|
  {
    match c
    case MenorCoste => nodos[x].coste
    case MenorHeuristica(gs) => if gs == [] then 0 else Minimo(PorObjetivo(nodos[x].heuristicas, gs))
    case MenorValor(gs) => if gs == [] then 0 else Minimo(PorObjetivo(nodos[x].valores, gs))
  }

  /**
   * The replacement branch of the searches: the first frontier node for the
   * state of `h` gives its place to `h` when `h` is strictly better, and the
   * frontier is otherwise left as it is.
   */
  function Reemplaza(nodos: seq<Nodo>, c: Criterio, fr: seq<nat>, h: nat): (r: seq<nat>)
    requires EnRango(nodos, fr) && h < |nodos|
    ensures |r| == |fr|
  {
    var i := PrimeroCon(nodos, fr, nodos[h].estado);
    if i.Some? && Valoracion(nodos, c, h) < Valoracion(nodos, c, fr[i.value]) then fr[i.value := h] else fr
  }

  /**
   * A replacement changes at most one position: it puts `h` there only in
   * place of the first node for the same state, and only when `h` is strictly
   * better; the rest of the frontier is unchanged.
   */
  lemma ReemplazaMejora(nodos: seq<Nodo>, c: Criterio, fr: seq<nat>, h: nat)
    requires EnRango(nodos, fr) && h < |nodos|
    ensures var r := Reemplaza(nodos, c, fr, h);
      forall k :: 0 <= k < |fr| ==> (r[k] == fr[k] ||
        (r[k] == h && nodos[fr[k]].estado == nodos[h].estado && Valoracion(nodos, c, h) < Valoracion(nodos, c, fr[k])
         && forall j :: 0 <= j < k ==> nodos[fr[j]].estado != nodos[h].estado))
    ensures var r := Reemplaza(nodos, c, fr, h);
      r != fr <==> (nodos[h].estado in EstadosDe(nodos, fr)
        && Valoracion(nodos, c, h) < Valoracion(nodos, c, fr[PrimeroCon(nodos, fr, nodos[h].estado).value]))
  {
    var i := PrimeroCon(nodos, fr, nodos[h].estado);
    if i.Some? && Valoracion(nodos, c, h) < Valoracion(nodos, c, fr[i.value]) {
      assert fr[i.value] != h;
      assert Reemplaza(nodos, c, fr, h)[i.value] != fr[i.value];
    }
  }

  /** A replacement by a node of the same tree keeps the bookkeeping and the frontier's states. */
  lemma RegistroReemplaza(p: Problema, nodos: seq<Nodo>, raiz: nat, fr: seq<nat>, e: set<string>, c: Criterio, h: nat)
    requires Registro(p, nodos, raiz, fr, e) && h < |nodos| && Raiz(nodos, h) == raiz
    ensures Registro(p, nodos, raiz, Reemplaza(nodos, c, fr, h), e)
    ensures EstadosDe(nodos, Reemplaza(nodos, c, fr, h)) == EstadosDe(nodos, fr)
  {
    var r := Reemplaza(nodos, c, fr, h);
    ReemplazaMejora(nodos, c, fr, h);
    assert EstadosDe(nodos, r) == EstadosDe(nodos, fr);
  }

  /** No goal among the explored states. */
  ghost predicate SinObjetivo(p: Problema, e: set<string>)
  {
    forall x :: x in e ==> !EsObjetivo(p, x)
  }

  /** A cover only depends on which states the frontier holds. */
  lemma CubreMismos(p: Problema, e: set<string>, fa: seq<string>, fb: seq<string>, s: string, k: nat)
    requires CubreSalvo(p, e, fa, s, k) && forall y :: y in fa <==> y in fb
    ensures CubreSalvo(p, e, fb, s, k)
  {
  }

  /** Appending a node for a new state reached by the `k`-th action of `s` keeps the bookkeeping and shrinks the exception. */
  lemma AnadeSigue(p: Problema, nodos: seq<Nodo>, raiz: nat, fr: seq<nat>, e: set<string>, s: string, k: nat, h: nat)
    requires Registro(p, nodos, raiz, fr, e) && h < |nodos| && Raiz(nodos, h) == raiz
    requires CubreSalvo(p, e, EstadosDe(nodos, fr), s, k)
    requires k < |FilaDe(p, s)| && FilaDe(p, s)[k].1 == nodos[h].estado
    requires nodos[h].estado !in e && nodos[h].estado !in EstadosDe(nodos, fr)
    ensures Registro(p, nodos, raiz, fr + [h], e) && CubreSalvo(p, e, EstadosDe(nodos, fr + [h]), s, k + 1)
    ensures EstadosDe(nodos, fr + [h]) == EstadosDe(nodos, fr) + [nodos[h].estado]
  {
    var fe := EstadosDe(nodos, fr);
    var y := nodos[h].estado;
    RegistroAmplia(p, nodos, raiz, fr, e, h);
    CubreAmplia(p, e, fe, y, s, k);
    CubreSigue(p, e, fe + [y], s, k);
  }

  /** The head of a frontier sorted by cost has the least cost. */
  lemma PrimeroMinimo(nodos: seq<Nodo>, fr: seq<nat>)
    requires EnRango(nodos, fr) && Ordenada(nodos, PorCoste, fr) && fr != []
    ensures forall k :: 0 <= k < |fr| ==> nodos[fr[0]].coste <= nodos[fr[k]].coste
  {
    forall k | 0 < k < |fr| ensures nodos[fr[0]].coste <= nodos[fr[k]].coste {
      PorCosteMenorIgual(nodos, fr[0], fr[k]);
    }
  }

  /** Taking the head out of a sorted frontier leaves it sorted. */
  lemma OrdenadaCola(nodos: seq<Nodo>, o: Orden, fr: seq<nat>)
    requires EnRango(nodos, fr) && Ordenada(nodos, o, fr) && fr != []
    ensures EnRango(nodos, fr[1..]) && Ordenada(nodos, o, fr[1..])
  {
    var r := fr[1..];
    forall i, j | 0 <= i < j < |r| ensures LexMenorIgual(ClaveDe(nodos, o, r[i]), ClaveDe(nodos, o, r[j])) {
      assert r[i] == fr[i + 1] && r[j] == fr[j + 1];
    }
  }

  /** Growing the tree keeps a frontier sorted (keys only read fields that never change). */
  lemma OrdenadaCrece(viejos: seq<Nodo>, nuevos: seq<Nodo>, o: Orden, fr: seq<nat>)
    requires Crece(viejos, nuevos) && EnRango(viejos, fr) && Ordenada(viejos, o, fr)
    ensures EnRango(nuevos, fr) && Ordenada(nuevos, o, fr)
  {
    forall k | 0 <= k < |fr| ensures ClaveDe(nuevos, o, fr[k]) == ClaveDe(viejos, o, fr[k]) {
      assert nuevos[fr[k]] == viejos[fr[k]].(hijos := nuevos[fr[k]].hijos);
    }
  }
}
