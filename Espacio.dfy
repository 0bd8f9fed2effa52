/**
 * What the search algorithms of `busqueda/noinformada.py` and
 * `busqueda/informada.py` share: the finite set of states a problem mentions,
 * paths through its transition table, closed sets of states, and the
 * invariant every node built by `crea_nodo_raiz`/`crea_nodo_hijo` keeps in
 * the arena of `Grafos.Arbol`.
 */
module Espacio {
  import opened Tipos
  import opened Grafos

  /** The states a problem mentions: the initial state, its goals, the states with a row and every target. */
  function Estados(p: Problema): (r: set<string>)
    ensures p.estadoInicial in r && forall g :: g in p.objetivos ==> g in r
    ensures forall s, k :: s in p.acciones && 0 <= k < |p.acciones[s]| ==> p.acciones[s][k].1 in r
  {
    {p.estadoInicial} + (set g | g in p.objetivos) + p.acciones.Keys
    + (set s, a | s in p.acciones && a in p.acciones[s] :: a.1)
  }

  /** Some action of `s` leads to `t`. */
  predicate Paso(p: Problema, s: string, t: string)
  {
    exists k :: 0 <= k < |FilaDe(p, s)| && FilaDe(p, s)[k].1 == t
  }

  /** A walk through the transition table. */
  predicate Camino(p: Problema, ss: seq<string>)
  {
    forall i :: 0 <= i < |ss| - 1 ==> Paso(p, ss[i], ss[i + 1])
  }

  /** No action leads out of `e`. */
  predicate Cerrado(p: Problema, e: set<string>)
  {
    forall s, k :: s in e && 0 <= k < |FilaDe(p, s)| ==> FilaDe(p, s)[k].1 in e
  }

  /** A walk that starts inside a closed set never leaves it. */
  lemma {:induction false} CerradoAtrapa(p: Problema, e: set<string>, ss: seq<string>)
    requires Cerrado(p, e) && Camino(p, ss) && ss != [] && ss[0] in e
    ensures forall i :: 0 <= i < |ss| ==> ss[i] in e
    decreases |ss|
  {
    if |ss| > 1 {
      var corto := ss[..|ss| - 1];
      assert Camino(p, corto) by {
        forall i | 0 <= i < |corto| - 1 ensures Paso(p, corto[i], corto[i + 1]) {
          assert corto[i] == ss[i] && corto[i + 1] == ss[i + 1];
        }
      }
      CerradoAtrapa(p, e, corto);
      assert ss[|ss| - 2] == corto[|corto| - 1];
      assert Paso(p, ss[|ss| - 2], ss[|ss| - 1]);
      var k :| 0 <= k < |FilaDe(p, ss[|ss| - 2])| && FilaDe(p, ss[|ss| - 2])[k].1 == ss[|ss| - 1];
      forall i | 0 <= i < |ss| ensures ss[i] in e {
        if i < |ss| - 1 {
          assert ss[i] == corto[i];
        }
      }
    }
  }

  /**
   * What an exhausted graph search knows: a closed set that holds the initial
   * state and no goal proves that no walk from the initial state reaches a goal.
   */
  lemma SinSalida(p: Problema, e: set<string>, ss: seq<string>)
    requires Cerrado(p, e) && p.estadoInicial in e && forall s :: s in e ==> !EsObjetivo(p, s)
    requires Camino(p, ss) && ss != [] && ss[0] == p.estadoInicial
    ensures forall i :: 0 <= i < |ss| ==> !EsObjetivo(p, ss[i])
  {
    CerradoAtrapa(p, e, ss);
  }

  // ---------------------------------------------------------------------------
  // Cardinalities, for termination
  // ---------------------------------------------------------------------------

  lemma CardinalSub<T>(a: set<T>, b: set<T>)
    requires a <= b
    ensures |a| <= |b|
    decreases |b|
  {
    if a != {} {
      var x :| x in a;
      CardinalSub(a - {x}, b - {x});
    }
  }

  /** Exploring a new state of `u` shrinks what is left to explore. */
  lemma Decrece<T>(u: set<T>, e: set<T>, f: set<T>, x: T)
    requires x in u && x !in e && e + {x} <= f
    ensures |u - f| < |u - e|
  {
    CardinalSub(u - f, u - (e + {x}));
    assert (u - (e + {x})) + {x} == u - e;
  }

  // ---------------------------------------------------------------------------
  // Nodes built by `crea_nodo_raiz` / `crea_nodo_hijo`
  // ---------------------------------------------------------------------------

  /**
   * A node as the search functions build it: its state is one of the
   * problem's, its actions are its state's row, and when it has a parent its
   * action leads from the parent's state to its own, and its cost is the
   * parent's cost plus that action's cost.
   */
  predicate NodoBueno(p: Problema, nodos: seq<Nodo>, j: nat)
    requires Arena(nodos) && j < |nodos|
  {
    assert Enlazado(nodos, j);
    nodos[j].estado in Estados(p) && nodos[j].acciones == FilaDe(p, nodos[j].estado)
    && match nodos[j].padre
       case None => true
       case Some(i) =>
         Resultado(p, nodos[i].estado, nodos[j].accion.value) == Some(nodos[j].estado)
         && nodos[j].coste == nodos[i].coste + CosteAccion(p, nodos[i].estado, nodos[j].accion.value)
  }

  predicate Buenos(p: Problema, nodos: seq<Nodo>)
  {
    Arena(nodos) && forall j :: 0 <= j < |nodos| ==> NodoBueno(p, nodos, j)
  }

  /** Only the children lists of the old nodes changed, and nodes were appended. */
  predicate Crece(viejos: seq<Nodo>, nuevos: seq<Nodo>)
  {
    |viejos| <= |nuevos| && forall j :: 0 <= j < |viejos| ==> nuevos[j] == viejos[j].(hijos := nuevos[j].hijos)
  }

  lemma CreceTransitivo(a: seq<Nodo>, b: seq<Nodo>, c: seq<Nodo>)
    requires Crece(a, b) && Crece(b, c)
    ensures Crece(a, c)
  {
    forall j | 0 <= j < |a| ensures c[j] == a[j].(hijos := c[j].hijos) {
      assert b[j] == a[j].(hijos := b[j].hijos);
    }
  }

  /** The root node `j` descends from. */
  ghost function Raiz(nodos: seq<Nodo>, j: nat): (r: nat)
    requires Arena(nodos) && j < |nodos|
    ensures r <= j && nodos[r].padre.None?
    decreases j
  {
    assert Enlazado(nodos, j);
    match nodos[j].padre
    case None => j
    case Some(i) => Raiz(nodos, i)
  }

  /** The states from the root down to node `j`. */
  ghost function Cadena(nodos: seq<Nodo>, j: nat): (r: seq<string>)
    requires Arena(nodos) && j < |nodos|
    ensures |r| == Nivel(nodos, j) + 1 && r[|r| - 1] == nodos[j].estado
    decreases j
  {
    assert Enlazado(nodos, j);
    match nodos[j].padre
    case None => [nodos[j].estado]
    case Some(i) => Cadena(nodos, i) + [nodos[j].estado]
  }

  /** Growing the arena changes no old node's root, chain, path cost or level. */
  lemma {:induction false} CreceEstable(p: Problema, viejos: seq<Nodo>, nuevos: seq<Nodo>, j: nat)
    requires Arena(viejos) && Arena(nuevos) && Crece(viejos, nuevos) && j < |viejos|
    ensures Raiz(nuevos, j) == Raiz(viejos, j) && Cadena(nuevos, j) == Cadena(viejos, j)
    ensures CosteRuta(p, nuevos, j) == CosteRuta(p, viejos, j) && Nivel(nuevos, j) == Nivel(viejos, j)
    ensures NodoBueno(p, viejos, j) ==> NodoBueno(p, nuevos, j)
    decreases j
  {
    assert Enlazado(viejos, j);
    assert nuevos[j] == viejos[j].(hijos := nuevos[j].hijos);
    if viejos[j].padre.Some? {
      var i := viejos[j].padre.value;
      CreceEstable(p, viejos, nuevos, i);
      assert nuevos[i] == viejos[i].(hijos := nuevos[i].hijos);
    }
  }

  /**
   * Costs accumulate: in a well-built arena a node's cost is its path cost
   * plus its root's cost, so the path cost itself under a root of cost 0.
   */
  lemma {:induction false} CosteAcumulado(p: Problema, nodos: seq<Nodo>, j: nat)
    requires Buenos(p, nodos) && j < |nodos|
    ensures nodos[j].coste == CosteRuta(p, nodos, j) + nodos[Raiz(nodos, j)].coste
    decreases j
  {
    assert Enlazado(nodos, j) && NodoBueno(p, nodos, j);
    if nodos[j].padre.Some? {
      CosteAcumulado(p, nodos, nodos[j].padre.value);
    }
  }

  /** In a well-built arena the states from a root to any node are a walk of the table. */
  lemma {:induction false} CadenaEsCamino(p: Problema, nodos: seq<Nodo>, j: nat)
    requires Buenos(p, nodos) && j < |nodos|
    ensures Camino(p, Cadena(nodos, j)) && Cadena(nodos, j)[0] == nodos[Raiz(nodos, j)].estado
    decreases j
  {
    assert Enlazado(nodos, j) && NodoBueno(p, nodos, j);
    if nodos[j].padre.Some? {
      var i := nodos[j].padre.value;
      CadenaEsCamino(p, nodos, i);
      var c := Cadena(nodos, i);
      var r := Cadena(nodos, j);
      assert r == c + [nodos[j].estado];
      var a := nodos[j].accion.value;
      var k :| 0 <= k < |p.acciones[nodos[i].estado]| && p.acciones[nodos[i].estado][k] == (a, nodos[j].estado);
      assert FilaDe(p, nodos[i].estado)[k].1 == nodos[j].estado;
      forall m | 0 <= m < |r| - 1 ensures Paso(p, r[m], r[m + 1]) {
        if m < |r| - 2 {
          assert r[m] == c[m] && r[m + 1] == c[m + 1];
        }
      }
    }
  }

  /** Everything a search can say about a node it returns, rooted at `raiz`. */
  ghost predicate Solucion(p: Problema, nodos: seq<Nodo>, raiz: nat, j: nat)
    requires Arena(nodos)
  {
    j < |nodos| && Raiz(nodos, j) == raiz
    && Camino(p, Cadena(nodos, j)) && Cadena(nodos, j)[0] == nodos[raiz].estado
    && nodos[j].coste == CosteRuta(p, nodos, j) + nodos[raiz].coste
  }

  lemma EsSolucion(p: Problema, nodos: seq<Nodo>, raiz: nat, j: nat)
    requires Buenos(p, nodos) && j < |nodos| && Raiz(nodos, j) == raiz
    ensures Solucion(p, nodos, raiz, j)
  {
    CadenaEsCamino(p, nodos, j);
    CosteAcumulado(p, nodos, j);
  }

  /** A node linked to an older parent (or to none) as the search functions link it can be appended. */
  lemma AgregaNodo(p: Problema, nodos: seq<Nodo>, c: Nodo)
    requires Buenos(p, nodos) && c.hijos == [] && c.estado in Estados(p) && c.acciones == FilaDe(p, c.estado)
    requires c.padre.Some? ==> (c.padre.value < |nodos| && c.accion.Some?
      && Resultado(p, nodos[c.padre.value].estado, c.accion.value) == Some(c.estado)
      && c.coste == nodos[c.padre.value].coste + CosteAccion(p, nodos[c.padre.value].estado, c.accion.value))
    ensures Buenos(p, nodos + [c]) && Crece(nodos, nodos + [c])
  {
    var nuevos := nodos + [c];
    forall j | 0 <= j < |nuevos| ensures Enlazado(nuevos, j) {
      if j < |nodos| {
        assert Enlazado(nodos, j);
      }
    }
    forall j | 0 <= j < |nuevos| ensures NodoBueno(p, nuevos, j) {
      if j < |nodos| {
        assert Enlazado(nodos, j) && NodoBueno(p, nodos, j);
      }
    }
  }

  /** Replacing a node's children by nodes of the arena keeps it well built. */
  lemma CambiaHijos(p: Problema, nodos: seq<Nodo>, i: nat, hs: seq<nat>)
    requires Buenos(p, nodos) && i < |nodos| && forall k :: 0 <= k < |hs| ==> hs[k] < |nodos|
    ensures Buenos(p, nodos[i := nodos[i].(hijos := hs)]) && Crece(nodos, nodos[i := nodos[i].(hijos := hs)])
  {
    var nuevos := nodos[i := nodos[i].(hijos := hs)];
    ArenaCambia(nodos, i, nodos[i].(hijos := hs));
    assert Crece(nodos, nuevos);
    forall j | 0 <= j < |nuevos| ensures NodoBueno(p, nuevos, j) {
      assert NodoBueno(p, nodos, j);
      CreceEstable(p, nodos, nuevos, j);
    }
  }

  /** A root as `crea_nodo_raiz` makes it can be appended. */
  lemma AgregaRaiz(p: Problema, nodos: seq<Nodo>, c: Nodo)
    requires Buenos(p, nodos) && c.padre.None? && c.hijos == []
    requires c.estado in Estados(p) && c.acciones == FilaDe(p, c.estado)
    ensures Buenos(p, nodos + [c]) && Crece(nodos, nodos + [c])
    ensures Raiz(nodos + [c], |nodos|) == |nodos|
  {
    AgregaNodo(p, nodos, c);
  }

  /** A child as `crea_nodo_hijo` makes it, linked to its parent `i`, can be appended. */
  lemma AgregaHijo(p: Problema, nodos: seq<Nodo>, i: nat, c: Nodo)
    requires Buenos(p, nodos) && i < |nodos|
    requires c.padre == Some(i) && c.accion.Some? && c.hijos == []
    requires Resultado(p, nodos[i].estado, c.accion.value) == Some(c.estado) && c.acciones == FilaDe(p, c.estado)
    requires c.coste == nodos[i].coste + CosteAccion(p, nodos[i].estado, c.accion.value)
    ensures var nuevos := nodos[i := nodos[i].(hijos := nodos[i].hijos + [|nodos|])] + [c];
      Buenos(p, nuevos) && Crece(nodos, nuevos) && Raiz(nuevos, |nodos|) == Raiz(nodos, i)
  {
    var s := nodos[i].estado;
    var k :| 0 <= k < |p.acciones[s]| && p.acciones[s][k] == (c.accion.value, c.estado);
    assert c.estado in Estados(p);
    var m := nodos + [c];
    AgregaNodo(p, nodos, c);
    assert Enlazado(nodos, i);
    CambiaHijos(p, m, i, nodos[i].hijos + [|nodos|]);
    var nuevos := m[i := m[i].(hijos := nodos[i].hijos + [|nodos|])];
    assert nuevos == nodos[i := nodos[i].(hijos := nodos[i].hijos + [|nodos|])] + [c];
    CreceTransitivo(nodos, m, nuevos);
    CreceEstable(p, nodos, m, i);
    CreceEstable(p, m, nuevos, i);
    assert Enlazado(nuevos, |nodos|);
  }

  // ---------------------------------------------------------------------------
  // Frontiers
  // ---------------------------------------------------------------------------

  predicate EnRango(nodos: seq<Nodo>, fr: seq<nat>)
  {
    forall k :: 0 <= k < |fr| ==> fr[k] < |nodos|
  }

  /** `[nodo.estado for nodo in frontera]`. */
  function EstadosDe(nodos: seq<Nodo>, fr: seq<nat>): (r: seq<string>)
    requires EnRango(nodos, fr)
    ensures |r| == |fr| && forall k :: 0 <= k < |fr| ==> r[k] == nodos[fr[k]].estado
  {
    seq(|fr|, k requires 0 <= k < |fr| => nodos[fr[k]].estado)
  }

  lemma EstadosDeCrece(viejos: seq<Nodo>, nuevos: seq<Nodo>, fr: seq<nat>)
    requires Crece(viejos, nuevos) && EnRango(viejos, fr)
    ensures EnRango(nuevos, fr) && EstadosDe(nuevos, fr) == EstadosDe(viejos, fr)
  {
    forall k | 0 <= k < |fr| ensures nuevos[fr[k]].estado == viejos[fr[k]].estado {
      assert nuevos[fr[k]] == viejos[fr[k]].(hijos := nuevos[fr[k]].hijos);
    }
  }

  predicate Distintos(xs: seq<string>)
  {
    forall i, j :: 0 <= i < j < |xs| ==> xs[i] != xs[j]
  }

  /** Every frontier node descends from `raiz`. */
  ghost predicate DeRaiz(nodos: seq<Nodo>, fr: seq<nat>, raiz: nat)
    requires Arena(nodos) && EnRango(nodos, fr)
  {
    forall k :: 0 <= k < |fr| ==> Raiz(nodos, fr[k]) == raiz
  }

  lemma DeRaizCrece(p: Problema, viejos: seq<Nodo>, nuevos: seq<Nodo>, fr: seq<nat>, raiz: nat)
    requires Arena(viejos) && Arena(nuevos) && Crece(viejos, nuevos) && EnRango(viejos, fr) && DeRaiz(viejos, fr, raiz)
    ensures EnRango(nuevos, fr) && DeRaiz(nuevos, fr, raiz)
  {
    forall k | 0 <= k < |fr| ensures Raiz(nuevos, fr[k]) == raiz {
      CreceEstable(p, viejos, nuevos, fr[k]);
    }
  }
}
