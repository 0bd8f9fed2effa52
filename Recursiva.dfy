/**
 * `recursiva_primero_mejor` of `busqueda/informada.py` (recursive best-first
 * search) over the nodes of `busqueda/grafos_simple.py`. Unlike the other
 * searches it rewrites the `alfa` of nodes it has already built, so its
 * frame is `Relleva` rather than `Crece`.
 */
module Recursiva {
  import opened Tipos
  import opened Grafos
  import opened Espacio
  import opened Frontera
  import opened GrafosSimple
  import opened Informada

  // ---------------------------------------------------------------------------
  // The frame: children lists and alfa change, nodes are appended
  // ---------------------------------------------------------------------------

  /** Only the children lists and the `alfa` of the old nodes changed, and nodes were appended. */
  predicate Relleva(viejos: seq<Nodo>, nuevos: seq<Nodo>)
  {
    |viejos| <= |nuevos|
    && forall j :: 0 <= j < |viejos| ==> nuevos[j] == viejos[j].(hijos := nuevos[j].hijos, alfa := nuevos[j].alfa)
  }

  lemma CreceRelleva(viejos: seq<Nodo>, nuevos: seq<Nodo>)
    requires Crece(viejos, nuevos)
    ensures Relleva(viejos, nuevos)
  {
    forall j | 0 <= j < |viejos| ensures nuevos[j] == viejos[j].(hijos := nuevos[j].hijos, alfa := nuevos[j].alfa) {
      assert nuevos[j] == viejos[j].(hijos := nuevos[j].hijos);
    }
  }

  lemma RellevaTransitivo(a: seq<Nodo>, b: seq<Nodo>, c: seq<Nodo>)
    requires Relleva(a, b) && Relleva(b, c)
    ensures Relleva(a, c)
  {
    forall j | 0 <= j < |a| ensures c[j] == a[j].(hijos := c[j].hijos, alfa := c[j].alfa) {
      assert b[j] == a[j].(hijos := b[j].hijos, alfa := b[j].alfa);
    }
  }

  /** Such a change keeps every old node's root and leaves a well-built node well built. */
  lemma {:induction false} RellevaEstable(p: Problema, viejos: seq<Nodo>, nuevos: seq<Nodo>, j: nat)
    requires Arena(viejos) && Arena(nuevos) && Relleva(viejos, nuevos) && j < |viejos|
    ensures Raiz(nuevos, j) == Raiz(viejos, j)
    ensures NodoBueno(p, viejos, j) ==> NodoBueno(p, nuevos, j)
    decreases j
  {
    assert Enlazado(viejos, j);
    assert nuevos[j] == viejos[j].(hijos := nuevos[j].hijos, alfa := nuevos[j].alfa);
    if viejos[j].padre.Some? {
      var i := viejos[j].padre.value;
      RellevaEstable(p, viejos, nuevos, i);
      assert nuevos[i] == viejos[i].(hijos := nuevos[i].hijos, alfa := nuevos[i].alfa);
    }
  }

  /**
   * From node `base` on, every child of a node names that node as its
   * parent: the tree `recursiva_primero_mejor` grows from its root `base`.
   */
  predicate Familia(nodos: seq<Nodo>, base: nat)
  {
    forall i, k :: base <= i < |nodos| && 0 <= k < |nodos[i].hijos| ==>
      nodos[i].hijos[k] < |nodos| && nodos[nodos[i].hijos[k]].padre == Some(i)
  }

  /** In that tree a child comes after its parent. */
  lemma HijoPosterior(nodos: seq<Nodo>, base: nat, i: nat, x: nat)
    requires Arena(nodos) && Familia(nodos, base) && base <= i < |nodos| && x in nodos[i].hijos
    ensures i < x < |nodos| && nodos[x].padre == Some(i)
  {
    var k :| 0 <= k < |nodos[i].hijos| && nodos[i].hijos[k] == x;
    assert Enlazado(nodos, x);
  }

  /** Setting one node's `alfa` keeps the arena well built and the tree as it was. */
  lemma CambiaAlfa(p: Problema, nodos: seq<Nodo>, i: nat, a: int, base: nat)
    requires Buenos(p, nodos) && i < |nodos|
    ensures var nuevos := nodos[i := nodos[i].(alfa := a)];
      Buenos(p, nuevos) && Relleva(nodos, nuevos) && (Familia(nodos, base) ==> Familia(nuevos, base))
  {
    var nuevos := nodos[i := nodos[i].(alfa := a)];
    forall j | 0 <= j < |nuevos| ensures Enlazado(nuevos, j) {
      assert Enlazado(nodos, j);
    }
    forall j | 0 <= j < |nuevos| ensures NodoBueno(p, nuevos, j) {
      RellevaEstable(p, nodos, nuevos, j);
    }
  }

  /** Setting the `alfa` of a node appended since `viejos` keeps the growth from `viejos`. */
  lemma CreceConAlfa(viejos: seq<Nodo>, nodos: seq<Nodo>, i: nat, a: int)
    requires Crece(viejos, nodos) && |viejos| <= i < |nodos|
    ensures Crece(viejos, nodos[i := nodos[i].(alfa := a)])
  {
  }

  /** Hanging a new childless node under a node of the tree keeps the tree. */
  lemma FamiliaColgado(nodos: seq<Nodo>, base: nat, i: nat, c: Nodo)
    requires Familia(nodos, base) && Arena(nodos) && i < |nodos| && c.padre == Some(i) && c.hijos == []
    ensures Familia(Colgado(nodos, i, c), base)
  {
    var nuevos := Colgado(nodos, i, c);
    forall j, k | base <= j < |nuevos| && 0 <= k < |nuevos[j].hijos|
      ensures nuevos[j].hijos[k] < |nuevos| && nuevos[nuevos[j].hijos[k]].padre == Some(j)
    {
      if j < |nodos| && k < |nodos[j].hijos| {
        assert Enlazado(nodos, j);
        assert nuevos[j].hijos[k] == nodos[j].hijos[k];
      }
    }
  }

  /** A child built for an action of node `i` of the tree can be hung under it. */
  lemma Enganchado(p: Problema, nodos: seq<Nodo>, base: nat, i: nat, c: Nodo)
    requires Buenos(p, nodos) && Familia(nodos, base) && i < |nodos|
    requires c.padre == Some(i) && c.accion.Some? && c.hijos == []
    requires Resultado(p, nodos[i].estado, c.accion.value) == Some(c.estado) && c.acciones == FilaDe(p, c.estado)
    requires c.coste == nodos[i].coste + CosteAccion(p, nodos[i].estado, c.accion.value)
    ensures var nuevos := Colgado(nodos, i, c);
      Buenos(p, nuevos) && Familia(nuevos, base) && Crece(nodos, nuevos)
  {
    AgregaHijo(p, nodos, i, c);
    FamiliaColgado(nodos, base, i, c);
  }

  // ---------------------------------------------------------------------------
  // max and min over the goals and the children
  // ---------------------------------------------------------------------------

  /** `max(xs)`. */
  function Maximo(xs: seq<int>): (r: int)
    requires xs != []
    ensures (exists k :: 0 <= k < |xs| && xs[k] == r) && forall k :: 0 <= k < |xs| ==> xs[k] <= r
  {
    if |xs| == 1 then xs[0]
    else
      var m := Maximo(xs[1..]);
      assert forall k :: 1 <= k < |xs| ==> xs[k] == xs[1..][k - 1];
      if xs[0] >= m then xs[0] else m
  }

  /** `min(a, b)`. */
  function Menor(a: int, b: int): (r: int)
    ensures r <= a && r <= b && (r == a || r == b)
  {
    if a <= b then a else b
  }

  /** The least `alfa` among the nodes `xs`. */
  function MenorAlfa(nodos: seq<Nodo>, xs: seq<nat>): (r: int)
    requires xs != [] && EnRango(nodos, xs)
    ensures (exists k :: 0 <= k < |xs| && nodos[xs[k]].alfa == r) && forall k :: 0 <= k < |xs| ==> r <= nodos[xs[k]].alfa
  {
    var vs := seq(|xs|, k requires 0 <= k < |xs| => nodos[xs[k]].alfa);
    assert forall k :: 0 <= k < |xs| ==> vs[k] == nodos[xs[k]].alfa;
    Minimo(vs)
  }

  /** The least `alfa` depends on the `alfa`s alone. */
  lemma MenorAlfaIgual(a: seq<Nodo>, b: seq<Nodo>, xs: seq<nat>)
    requires xs != [] && EnRango(a, xs) && EnRango(b, xs)
    requires forall k :: 0 <= k < |xs| ==> a[xs[k]].alfa == b[xs[k]].alfa
    ensures MenorAlfa(a, xs) == MenorAlfa(b, xs)
  {
    assert seq(|xs|, k requires 0 <= k < |xs| => a[xs[k]].alfa) == seq(|xs|, k requires 0 <= k < |xs| => b[xs[k]].alfa);
  }

  /**
   * `hijo.alfa = max(max(hijo.valores[g] for g in objetivos), alfa)`: the
   * child's `alfa` is the least number at least its parent's `alfa` and its
   * value for every goal.
   */
  predicate Heredada(p: Problema, nodos: seq<Nodo>, x: nat, alfa: int)
    requires x < |nodos|
  {
    var a := nodos[x].alfa;
    a >= alfa
    && (forall g :: g in p.objetivos ==> Nombre(g) in nodos[x].valores && a >= nodos[x].valores[Nombre(g)])
    && (a == alfa || exists g :: g in p.objetivos && Nombre(g) in nodos[x].valores && a == nodos[x].valores[Nombre(g)])
  }

  /** The `alfa` `_brpm_recursiva` gives a child is the one `Heredada` describes. */
  lemma MaximoHeredado(p: Problema, valores: map<Clave, int>, alfa: int)
    requires p.objetivos != [] && forall g :: g in p.objetivos ==> Nombre(g) in valores
    ensures var m := Maximo(PorObjetivo(valores, p.objetivos));
      var a := if m >= alfa then m else alfa;
      a >= alfa && (forall g :: g in p.objetivos ==> a >= valores[Nombre(g)])
      && (a == alfa || exists g :: g in p.objetivos && Nombre(g) in valores && a == valores[Nombre(g)])
  {
    var vs := PorObjetivo(valores, p.objetivos);
    var m := Maximo(vs);
    forall g | g in p.objetivos ensures valores[Nombre(g)] <= m {
      var k :| 0 <= k < |p.objetivos| && p.objetivos[k] == g;
      assert vs[k] == valores[Nombre(g)];
    }
    var k :| 0 <= k < |vs| && vs[k] == m;
    assert p.objetivos[k] in p.objetivos && vs[k] == valores[Nombre(p.objetivos[k])];
  }

  /** With the metric `alfa` the goal plays no part, so comparing for every goal is comparing once. */
  lemma {:induction false} ComparaAlfa(p: Problema, nodos: seq<Nodo>, mejor: nat, x: nat, gs: seq<string>)
    requires Arena(nodos) && gs != []
    ensures Compara(p, nodos, METRICAS_HIJO, "alfa", "menor", mejor, x, gs)
            == Compara(p, nodos, METRICAS_HIJO, "alfa", "menor", mejor, x, [gs[0]])
    decreases |gs|
  {
    if |gs| > 1 {
      var gs' := gs[..|gs| - 1];
      assert gs'[0] == gs[0];
      ComparaAlfa(p, nodos, mejor, x, gs');
      assert [gs[0]][..0] == [];
    } else {
      assert gs == [gs[0]];
    }
  }

  lemma {:induction false} EscogeAlfa(p: Problema, nodos: seq<Nodo>, mejor: nat, xs: seq<nat>, gs: seq<string>)
    requires Arena(nodos) && gs != []
    ensures Escoge(p, nodos, METRICAS_HIJO, "alfa", "menor", mejor, xs, gs)
            == Escoge(p, nodos, METRICAS_HIJO, "alfa", "menor", mejor, xs, [gs[0]])
    decreases |xs|
  {
    if xs != [] {
      EscogeAlfa(p, nodos, mejor, xs[..|xs| - 1], gs);
      var m := Escoge(p, nodos, METRICAS_HIJO, "alfa", "menor", mejor, xs[..|xs| - 1], gs);
      ComparaAlfa(p, nodos, m, xs[|xs| - 1], gs);
    }
  }

  /** `hijo_mejor(metrica='alfa')` (for at least one goal) is a child of least `alfa`. */
  lemma AlfaMenor(p: Problema, nodos: seq<Nodo>, hs: seq<nat>)
    requires Arena(nodos) && hs != [] && p.objetivos != [] && EnRango(nodos, hs)
    ensures var r := Escoge(p, nodos, METRICAS_HIJO, "alfa", "menor", hs[0], hs, p.objetivos);
      r in hs && nodos[r].alfa == MenorAlfa(nodos, hs)
  {
    var g := p.objetivos[0];
    EscogeAlfa(p, nodos, hs[0], hs, p.objetivos);
    var r := Escoge(p, nodos, METRICAS_HIJO, "alfa", "menor", hs[0], hs, [g]);
    HijoMejorPrimero(p, nodos, "alfa", "menor", hs, g);
    var i :| 0 <= i < |hs| && hs[i] == r
      && forall j :: 0 <= j < |hs| ==> !Mejora("menor", Medida(p, nodos, "alfa", hs[j], g), Medida(p, nodos, "alfa", r, g));
    var j :| 0 <= j < |hs| && nodos[hs[j]].alfa == MenorAlfa(nodos, hs);
    assert Medida(p, nodos, "alfa", hs[j], g) == nodos[hs[j]].alfa;
  }

  // ---------------------------------------------------------------------------
  // Linking the children
  // ---------------------------------------------------------------------------

  /** The targets of `acciones`, in order, whose state is not in `explorados`. */
  function Destinos(acciones: Tabla, explorados: set<string>): (r: seq<string>)
    ensures |r| <= |acciones|
  {
    if acciones == [] then []
    else
      var s := acciones[|acciones| - 1].1;
      Destinos(acciones[..|acciones| - 1], explorados) + (if s in explorados then [] else [s])
  }

  /** A state is a linked target exactly when some action leads to it and it is not explored. */
  lemma {:induction false} DestinosSon(acciones: Tabla, explorados: set<string>, s: string)
    ensures s in Destinos(acciones, explorados) <==>
      s !in explorados && exists k :: 0 <= k < |acciones| && acciones[k].1 == s
    decreases |acciones|
  {
    if acciones != [] {
      var previas := acciones[..|acciones| - 1];
      DestinosSon(previas, explorados, s);
      assert forall k :: 0 <= k < |previas| ==> previas[k] == acciones[k];
      if s !in explorados && (exists k :: 0 <= k < |acciones| && acciones[k].1 == s) {
        var k :| 0 <= k < |acciones| && acciones[k].1 == s;
        if k < |previas| {
          assert previas[k].1 == s;
        }
      }
    }
  }

  /**
   * The linking half of one action of `_brpm_recursiva`: the unlinked child
   * `hijo` (the last node) gets `nodo` as its parent, becomes `nodo`'s last
   * child and gets the `alfa` of `Heredada`.
   */
  method Engancha(p: Problema, t: Arbol, nodo: nat, hijo: nat, ghost viejos: seq<Nodo>, ghost c: Nodo, ghost base: nat)
    requires Buenos(p, viejos) && Familia(viejos, base) && base <= nodo < |viejos| && hijo == |viejos|
    requires t.nodos == viejos + [c.(padre := None)] && p.objetivos != []
    requires c.padre == Some(nodo) && c.accion.Some? && c.hijos == []
    requires Resultado(p, viejos[nodo].estado, c.accion.value) == Some(c.estado) && c.acciones == FilaDe(p, c.estado)
    requires c.coste == viejos[nodo].coste + CosteAccion(p, viejos[nodo].estado, c.accion.value)
    requires forall g :: g in p.objetivos ==> Nombre(g) in c.valores
    modifies t
    ensures |t.nodos| == hijo + 1 && t.nodos == Colgado(viejos, nodo, c.(alfa := t.nodos[hijo].alfa))
    ensures Buenos(p, t.nodos) && Familia(t.nodos, base) && Crece(viejos, t.nodos)
    ensures Heredada(p, t.nodos, hijo, viejos[nodo].alfa)
  {
    var h := t.Agregar(nodo, hijo);
    assert t.nodos == Colgado(viejos, nodo, c);
    Enganchado(p, viejos, base, nodo, c);
    var maximo := Maximo(PorObjetivo(t.nodos[hijo].valores, p.objetivos));
    var alfa := if maximo >= t.nodos[nodo].alfa then maximo else t.nodos[nodo].alfa;
    MaximoHeredado(p, t.nodos[hijo].valores, t.nodos[nodo].alfa);
    CambiaAlfa(p, t.nodos, hijo, alfa, base);
    CreceConAlfa(viejos, t.nodos, hijo, alfa);
    t.nodos := t.nodos[hijo := t.nodos[hijo].(alfa := alfa)];
  }

  /**
   * One action of the loop of `_brpm_recursiva` over `nodo.acciones`: the
   * child is built unlinked and, when its state is not explored, becomes the
   * last child of `nodo` with the `alfa` of `Heredada`.
   */
  method EnlazaUno(p: Problema, t: Arbol, nodo: nat, k: nat, explorados: set<string>, ghost base: nat)
    returns (enlazado: Option<nat>)
    requires Buenos(p, t.nodos) && Tasado(p) && p.objetivos != [] && base <= nodo < |t.nodos| && k < |t.nodos[nodo].acciones|
    requires Familia(t.nodos, base)
    modifies t
    ensures Buenos(p, t.nodos) && Familia(t.nodos, base) && Crece(old(t.nodos), t.nodos)
    ensures |t.nodos| == |old(t.nodos)| + 1
    ensures forall j :: 0 <= j < |old(t.nodos)| && j != nodo ==> t.nodos[j] == old(t.nodos)[j]
    ensures var s := old(t.nodos)[nodo].acciones[k].1;
      enlazado == (if s in explorados then None else Some(|old(t.nodos)|))
      && t.nodos[nodo] == old(t.nodos)[nodo].(hijos := old(t.nodos)[nodo].hijos + if s in explorados then [] else [|old(t.nodos)|])
    ensures enlazado.Some? ==> t.nodos[enlazado.value].estado == old(t.nodos)[nodo].acciones[k].1
                               && Heredada(p, t.nodos, enlazado.value, old(t.nodos)[nodo].alfa)
  {
    var accion := t.nodos[nodo].acciones[k];
    AccionDeNodo(p, t.nodos, nodo, k);
    var hijo := CreaNodoHijo(p, t, nodo, accion.0, false);
    if t.nodos[hijo].estado in explorados {
      return None;
    }
    ghost var n := HijoSimple(p, nodo, old(t.nodos)[nodo].estado, old(t.nodos)[nodo].coste, (accion.0, accion.1));
    Engancha(p, t, nodo, hijo, old(t.nodos), n, base);
    enlazado := Some(hijo);
  }

  /** The nodes `xs`, all created from `desde` on, carry the `alfa` of `Heredada`. */
  ghost predicate Heredados(p: Problema, nodos: seq<Nodo>, xs: seq<nat>, desde: nat, alfa: int)
  {
    forall x :: x in xs ==> desde <= x < |nodos| && Heredada(p, nodos, x, alfa)
  }

  /** Growing the tree without touching the nodes from `desde` on keeps them as they were. */
  lemma HeredadosSigue(p: Problema, antes: seq<Nodo>, despues: seq<Nodo>, xs: seq<nat>, desde: nat, alfa: int, nodo: nat)
    requires Heredados(p, antes, xs, desde, alfa) && nodo < desde && |antes| <= |despues|
    requires forall j :: 0 <= j < |antes| && j != nodo ==> despues[j] == antes[j]
    ensures Heredados(p, despues, xs, desde, alfa)
  {
    forall x | x in xs ensures desde <= x < |despues| && Heredada(p, despues, x, alfa) {
      assert despues[x] == antes[x];
    }
  }

  /** The targets of one more action: the target is appended when it is not explored. */
  lemma DestinosPaso(acciones: Tabla, k: nat, explorados: set<string>)
    requires k < |acciones|
    ensures Destinos(acciones[..k + 1], explorados)
      == Destinos(acciones[..k], explorados) + (if acciones[k].1 in explorados then [] else [acciones[k].1])
  {
    assert acciones[..k + 1][..k] == acciones[..k];
  }

  /**
   * The loop of `_brpm_recursiva` over `nodo.acciones`: the children of the
   * actions whose target is not explored are appended to `nodo`'s children,
   * in order, each with the `alfa` of `Heredada`; no other old node changes.
   */
  method EnlazaHijos(p: Problema, t: Arbol, nodo: nat, explorados: set<string>, ghost base: nat)
    returns (nuevos: seq<nat>)
    requires Buenos(p, t.nodos) && Tasado(p) && p.objetivos != [] && base <= nodo < |t.nodos| && Familia(t.nodos, base)
    modifies t
    ensures Buenos(p, t.nodos) && Familia(t.nodos, base) && Crece(old(t.nodos), t.nodos)
    ensures forall j :: 0 <= j < |old(t.nodos)| && j != nodo ==> t.nodos[j] == old(t.nodos)[j]
    ensures t.nodos[nodo] == old(t.nodos)[nodo].(hijos := old(t.nodos)[nodo].hijos + nuevos)
    ensures EnRango(t.nodos, nuevos) && EstadosDe(t.nodos, nuevos) == Destinos(old(t.nodos)[nodo].acciones, explorados)
    ensures forall x :: x in nuevos ==> |old(t.nodos)| <= x < |t.nodos| && Heredada(p, t.nodos, x, old(t.nodos)[nodo].alfa)
  {
    var acciones := t.nodos[nodo].acciones;
    nuevos := [];
    var k := 0;
    while k < |acciones|
      invariant 0 <= k <= |acciones| && nodo < |t.nodos|
      invariant Buenos(p, t.nodos) && Familia(t.nodos, base) && Crece(old(t.nodos), t.nodos)
      invariant forall j :: 0 <= j < |old(t.nodos)| && j != nodo ==> t.nodos[j] == old(t.nodos)[j]
      invariant t.nodos[nodo] == old(t.nodos)[nodo].(hijos := old(t.nodos)[nodo].hijos + nuevos)
      invariant EnRango(t.nodos, nuevos) && EstadosDe(t.nodos, nuevos) == Destinos(acciones[..k], explorados)
      invariant Heredados(p, t.nodos, nuevos, |old(t.nodos)|, old(t.nodos)[nodo].alfa)
    {
      ghost var antes := t.nodos;
      var h := EnlazaUno(p, t, nodo, k, explorados, base);
      EstadosDeCrece(antes, t.nodos, nuevos);
      CreceTransitivo(old(t.nodos), antes, t.nodos);
      HeredadosSigue(p, antes, t.nodos, nuevos, |old(t.nodos)|, old(t.nodos)[nodo].alfa, nodo);
      DestinosPaso(acciones, k, explorados);
      if h.Some? {
        assert EstadosDe(t.nodos, nuevos + [h.value]) == EstadosDe(t.nodos, nuevos) + [acciones[k].1];
        nuevos := nuevos + [h.value];
      }
      k := k + 1;
    }
    assert acciones[..k] == acciones;
  }

  /**
   * The bound `_brpm_recursiva` passes down to `mejor`: with `mejor` taken
   * out of `nodo`'s children for the moment, `hijo_mejor(metrica='alfa')`
   * of the others, capped at `limite`; `limite` itself without others. The
   * children are put back as they were.
   */
  method Alternativa(p: Problema, t: Arbol, nodo: nat, mejor: nat, limite: int) returns (alfa: int)
    requires t.Valido() && nodo < |t.nodos| && mejor in t.nodos[nodo].hijos && p.objetivos != []
    modifies t
    ensures t.nodos == old(t.nodos)
    ensures var otros := Quita(t.nodos[nodo].hijos, mejor);
      EnRango(t.nodos, otros) && alfa == if otros == [] then limite else Menor(limite, MenorAlfa(t.nodos, otros))
  {
    var hijos := t.nodos[nodo].hijos;
    var otros := Quita(hijos, mejor);
    assert Enlazado(t.nodos, nodo);
    assert forall k :: 0 <= k < |otros| ==> otros[k] in multiset(hijos);
    t.nodos := t.nodos[nodo := t.nodos[nodo].(hijos := otros)];
    ArenaCambia(old(t.nodos), nodo, t.nodos[nodo]);
    alfa := MejorOtro(p, t, nodo, limite);
    if otros != [] {
      MenorAlfaIgual(t.nodos, old(t.nodos), otros);
    }
    t.nodos := t.nodos[nodo := t.nodos[nodo].(hijos := hijos)];
  }

  /** The rest of `Alternativa`, on the children left: `min(limite, alternativa.alfa)`, or `limite` without children. */
  method MejorOtro(p: Problema, t: Arbol, nodo: nat, limite: int) returns (alfa: int)
    requires t.Valido() && nodo < |t.nodos| && p.objetivos != []
    ensures EnRango(t.nodos, t.nodos[nodo].hijos)
    ensures alfa == if t.nodos[nodo].hijos == [] then limite else Menor(limite, MenorAlfa(t.nodos, t.nodos[nodo].hijos))
  {
    assert Enlazado(t.nodos, nodo);
    alfa := limite;
    if t.nodos[nodo].hijos != [] {
      var alternativa := HijoMejor(p, t, nodo, "alfa", "menor");
      AlfaMenor(p, t.nodos, t.nodos[nodo].hijos);
      alfa := if limite <= t.nodos[alternativa.value].alfa then limite else t.nodos[alternativa.value].alfa;
    }
  }

  // ---------------------------------------------------------------------------
  // _brpm_recursiva and recursiva_primero_mejor
  // ---------------------------------------------------------------------------

  /**
   * The start of a round of `_brpm_recursiva`: `hijo_mejor(metrica='alfa')`
   * is a child of least `alfa`; the round fails when that `alfa` exceeds
   * `limite`, and otherwise `Alternativa` gives the bound to search it with.
   */
  method EligeMejor(p: Problema, t: Arbol, nodo: nat, limite: int, ghost base: nat)
    returns (mejor: nat, cota: int, falla: bool)
    requires Buenos(p, t.nodos) && p.objetivos != [] && base <= nodo < |t.nodos| && Familia(t.nodos, base)
    requires t.nodos[nodo].hijos != []
    modifies t
    ensures t.nodos == old(t.nodos)
    ensures mejor in t.nodos[nodo].hijos && nodo < mejor < |t.nodos| && t.nodos[mejor].padre == Some(nodo)
    ensures EnRango(t.nodos, t.nodos[nodo].hijos) && t.nodos[mejor].alfa == MenorAlfa(t.nodos, t.nodos[nodo].hijos)
    ensures falla <==> t.nodos[mejor].alfa > limite
    ensures !falla ==> var otros := Quita(t.nodos[nodo].hijos, mejor);
      EnRango(t.nodos, otros) && cota == if otros == [] then limite else Menor(limite, MenorAlfa(t.nodos, otros))
  {
    assert Enlazado(t.nodos, nodo);
    assert Medibles(t.nodos, "alfa", t.nodos[nodo].hijos, p.objetivos);
    var m := HijoMejor(p, t, nodo, "alfa", "menor");
    mejor := m.value;
    AlfaMenor(p, t.nodos, t.nodos[nodo].hijos);
    HijoPosterior(t.nodos, base, nodo, mejor);
    cota := limite;
    falla := t.nodos[mejor].alfa > limite;
    if !falla {
      cota := Alternativa(p, t, nodo, mejor, limite);
    }
  }

  /**
   * One round of the `while True` of `_brpm_recursiva`: the child of least
   * `alfa` fails the round when that `alfa` exceeds `limite`; otherwise it
   * is searched with the bound of `Alternativa`, and the bound it reports
   * becomes its `alfa`. The round ends the loop with a goal, with the
   * failure, or when the fuel of the call below runs out (`agotado`), and
   * lets it go on (`sigue`) otherwise.
   */
  method RondaBrpm(p: Problema, t: Arbol, nodo: nat, limite: int, explorados: set<string>, fuel: nat, ghost base: nat)
    returns (r: Option<nat>, lim: int, vistos: set<string>, sigue: bool, agotado: bool)
    requires Buenos(p, t.nodos) && Tasado(p) && p.objetivos != [] && base <= nodo < |t.nodos| && Familia(t.nodos, base)
    requires t.nodos[nodo].hijos != [] && fuel > 0
    modifies t
    ensures Buenos(p, t.nodos) && Familia(t.nodos, base) && Relleva(old(t.nodos), t.nodos)
    ensures forall j :: 0 <= j <= nodo ==> t.nodos[j] == old(t.nodos)[j]
    ensures explorados <= vistos
    ensures sigue ==> r.None? && !agotado
    ensures agotado ==> r.None? && !sigue
    ensures r.Some? ==> r.value < |t.nodos| && EsObjetivo(p, t.nodos[r.value].estado)
                        && Solucion(p, t.nodos, Raiz(old(t.nodos), nodo), r.value)
    ensures r.None? && !sigue && !agotado ==>
      EnRango(old(t.nodos), old(t.nodos)[nodo].hijos) && lim == MenorAlfa(old(t.nodos), old(t.nodos)[nodo].hijos) && lim > limite
    decreases fuel, 0
  {
    var mejor, cota, falla := EligeMejor(p, t, nodo, limite, base);
    if falla {
      return None, t.nodos[mejor].alfa, explorados, false, false;
    }
    var res, sub, agota;
    res, sub, vistos, agota := BrpmRecursiva(p, t, mejor, cota, explorados, fuel - 1, base);
    ghost var tras := t.nodos;
    CambiaAlfa(p, t.nodos, mejor, sub, base);
    t.nodos := t.nodos[mejor := t.nodos[mejor].(alfa := sub)];
    RellevaTransitivo(old(t.nodos), tras, t.nodos);
    lim := sub;
    if agota {
      return None, lim, vistos, false, true;
    }
    if res.Some? {
      RellevaEstable(p, tras, t.nodos, res.value);
      EsSolucion(p, t.nodos, Raiz(old(t.nodos), nodo), res.value);
      return res, lim, vistos, false, false;
    }
    return None, lim, vistos, true, false;
  }

  /**
   * `_brpm_recursiva(problema, nodo, limite, explorados)`, with its `while
   * True` given at most `fuel` rounds and each call below `fuel - 1`
   * (`agotado` when they run out). The state is explored; a limit of 0 or
   * less means `infinito`; a goal is returned with the limit; a node without
   * actions fails with the limit, and one left without children with
   * `infinito`; else rounds run until one ends the loop. Old nodes keep all
   * but their children and `alfa`; nothing before `nodo` changes, and `nodo`
   * only gains children.
   */
  method BrpmRecursiva(p: Problema, t: Arbol, nodo: nat, limite: int, explorados: set<string>, fuel: nat, ghost base: nat)
    returns (r: Option<nat>, lim: int, vistos: set<string>, agotado: bool)
    requires Buenos(p, t.nodos) && Tasado(p) && p.objetivos != [] && base <= nodo < |t.nodos| && Familia(t.nodos, base)
    modifies t
    ensures Buenos(p, t.nodos) && Familia(t.nodos, base) && Relleva(old(t.nodos), t.nodos)
    ensures forall j :: 0 <= j < nodo ==> t.nodos[j] == old(t.nodos)[j]
    ensures t.nodos[nodo] == old(t.nodos)[nodo].(hijos := t.nodos[nodo].hijos)
    ensures old(t.nodos)[nodo].hijos <= t.nodos[nodo].hijos
    ensures explorados + {old(t.nodos)[nodo].estado} <= vistos
    ensures agotado ==> r.None?
    ensures r.Some? ==> r.value < |t.nodos| && EsObjetivo(p, t.nodos[r.value].estado)
                        && Solucion(p, t.nodos, Raiz(old(t.nodos), nodo), r.value)
    ensures var s := old(t.nodos)[nodo].estado;
      var l := LimiteEfectivo(p, limite);
      (EsObjetivo(p, s) ==> r == Some(nodo) && lim == l && !agotado)
      && (!EsObjetivo(p, s) && old(t.nodos)[nodo].acciones == [] ==> r.None? && lim == l && !agotado)
      && (r.None? && !agotado && old(t.nodos)[nodo].acciones != [] ==> lim > l || lim == p.infinito)
    decreases fuel, 1
  {
    vistos := explorados + {t.nodos[nodo].estado};
    var l := LimiteEfectivo(p, limite);
    if EsObjetivo(p, t.nodos[nodo].estado) {
      EsSolucion(p, t.nodos, Raiz(t.nodos, nodo), nodo);
      return Some(nodo), l, vistos, false;
    }
    if t.nodos[nodo].acciones == [] {
      return None, l, vistos, false;
    }
    var nuevos := EnlazaHijos(p, t, nodo, vistos, base);
    CreceRelleva(old(t.nodos), t.nodos);
    RellevaEstable(p, old(t.nodos), t.nodos, nodo);
    if t.nodos[nodo].hijos == [] {
      return None, p.infinito, vistos, false;
    }
    var resto := fuel;
    while resto > 0
      invariant resto <= fuel && base <= nodo < |t.nodos| && t.nodos[nodo].hijos != []
      invariant Buenos(p, t.nodos) && Familia(t.nodos, base) && Relleva(old(t.nodos), t.nodos)
      invariant forall j :: 0 <= j < nodo ==> t.nodos[j] == old(t.nodos)[j]
      invariant t.nodos[nodo] == old(t.nodos)[nodo].(hijos := t.nodos[nodo].hijos)
      invariant old(t.nodos)[nodo].hijos <= t.nodos[nodo].hijos
      invariant explorados + {old(t.nodos)[nodo].estado} <= vistos
      invariant Raiz(t.nodos, nodo) == Raiz(old(t.nodos), nodo)
      decreases resto
    {
      ghost var antes := t.nodos;
      var res, sigue, agota;
      res, lim, vistos, sigue, agota := RondaBrpm(p, t, nodo, l, vistos, resto, base);
      RellevaTransitivo(old(t.nodos), antes, t.nodos);
      RellevaEstable(p, antes, t.nodos, nodo);
      if !sigue {
        return res, lim, vistos, agota;
      }
      resto := resto - 1;
    }
    return None, l, vistos, true;
  }

  /**
   * `recursiva_primero_mejor(problema)`: `_brpm_recursiva` from a fresh root
   * of `alfa` 0 with limit `infinito` and nothing explored. A node it returns
   * is a goal reached from the root along the table.
   */
  method RecursivaPrimeroMejor(p: Problema, t: Arbol, fuel: nat) returns (r: Option<nat>, lim: int, agotado: bool)
    requires Buenos(p, t.nodos) && Tasado(p) && p.objetivos != []
    modifies t
    ensures Buenos(p, t.nodos) && Relleva(old(t.nodos), t.nodos) && |old(t.nodos)| < |t.nodos|
    ensures t.nodos[|old(t.nodos)|] == RaizInformada(p).(hijos := t.nodos[|old(t.nodos)|].hijos)
    ensures agotado ==> r.None?
    ensures r.Some? ==> r.value < |t.nodos| && EsObjetivo(p, t.nodos[r.value].estado)
                        && Solucion(p, t.nodos, |old(t.nodos)|, r.value)
    ensures EsObjetivo(p, p.estadoInicial) ==> r == Some(|old(t.nodos)|) && !agotado
    ensures !EsObjetivo(p, p.estadoInicial) && FilaDe(p, p.estadoInicial) == [] ==> r.None? && !agotado
    ensures r.None? && !agotado ==> lim >= p.infinito
  {
    var raiz := CreaNodoRaiz(p, t);
    CambiaAlfa(p, t.nodos, raiz, 0, raiz);
    t.nodos := t.nodos[raiz := t.nodos[raiz].(alfa := 0)];
    var vistos;
    r, lim, vistos, agotado := BrpmRecursiva(p, t, raiz, p.infinito, {}, fuel, raiz);
    CreceRelleva(old(t.nodos), old(t.nodos) + [RaizInformada(p)]);
    RellevaTransitivo(old(t.nodos), old(t.nodos) + [RaizInformada(p)], t.nodos);
  }
}
