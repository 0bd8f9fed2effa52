/**
 * The data structures of graph search, `busqueda/grafos.py`: the problem
 * (transition table, costs), its lookups, and the search tree with
 * `coste_camino`, `agregar` and `expandir`.
 *
 * States and actions are identified by their names. A transition row keeps
 * the order of the Python dict it models (that order decides the order of
 * children), and has no repeated action. The search tree is an arena: node
 * `i` of `Arbol.nodos` is a node object, and `padre`/`hijos` hold indices.
 */
module Grafos {
  import opened Tipos

  /** The default `coste_infinito` / `infinito`. */
  const INFINITO: int := 99999

  /** No action name occurs twice in a row (a row is a dict). */
  predicate ClavesDistintas(t: seq<(string, string)>)
  {
    forall i, j :: 0 <= i < j < |t| ==> t[i].0 != t[j].0
  }

  /** One row of the transition table: action name to target state name, in dict order. */
  type Tabla = t: seq<(string, string)> | ClavesDistintas(t) witness []

  /** Dict lookup in a row. */
  function Busca(t: Tabla, clave: string): (r: Option<string>)
    ensures r.None? <==> forall i :: 0 <= i < |t| ==> t[i].0 != clave
    ensures forall i :: 0 <= i < |t| && t[i].0 == clave ==> r == Some(t[i].1)
    decreases |t|
  {
    if t == [] then None
    else if t[0].0 == clave then Some(t[0].1)
    else Busca(t[1..], clave)
  }

  /**
   * Key of an inner heuristic table: normally a goal's name; the default
   * table of `grafos_simple.py` is keyed by the goal object itself.
   */
  datatype Clave = Nombre(nombre: string) | Objeto(nombre: string)

  /**
   * `Problema`: initial state, goals, transitions, action costs, and (only in
   * `grafos_simple.py`) heuristic estimates per state and goal; `infinito` is
   * the cost of an action missing from `costes`.
   */
  datatype Problema = Problema(
    estadoInicial: string,
    objetivos: seq<string>,
    acciones: map<string, Tabla>,
    costes: map<string, map<string, int>>,
    heuristicas: map<string, map<Clave, int>>,
    infinito: int)

  /**
   * The constructor of `grafos.py`: a missing initial state, no goals or no
   * actions are rejected; without costes the source fails too (the default
   * branch reads `self.acciones` before assigning it), so costs are required.
   */
  function NuevoProblema(estadoInicial: Option<string>, objetivos: seq<string>, acciones: map<string, Tabla>,
                         costes: map<string, map<string, int>>, costeInfinito: int): (r: Option<Problema>)
    ensures r.Some? <==> estadoInicial.Some? && objetivos != [] && acciones != map[] && costes != map[]
    ensures r.Some? ==> (r.value.estadoInicial == estadoInicial.value && r.value.objetivos == objetivos
                         && r.value.acciones == acciones && r.value.costes == costes && r.value.infinito == costeInfinito)
  {
    if estadoInicial.None? || objetivos == [] || acciones == map[] || costes == map[] then None
    else Some(Problema(estadoInicial.value, objetivos, acciones, costes, map[], costeInfinito))
  }

  /** `es_objetivo`: the state is one of the goals. */
  function EsObjetivo(p: Problema, estado: string): (r: bool)
    ensures r <==> exists i :: 0 <= i < |p.objetivos| && p.objetivos[i] == estado
  {
    estado in p.objetivos
  }

  /** `resultado`: the target of the action in the state's row; None when the state or the action is missing. */
  function Resultado(p: Problema, estado: string, accion: string): (r: Option<string>)
    ensures r.Some? <==> estado in p.acciones && exists i :: 0 <= i < |p.acciones[estado]| && p.acciones[estado][i].0 == accion
    ensures r.Some? ==> (accion, r.value) in p.acciones[estado]
  {
    if estado !in p.acciones then None else Busca(p.acciones[estado], accion)
  }

  /** The row of a state, or `{}` when the table has none (as `crea_nodo_*` and `expandir` build it). */
  function FilaDe(p: Problema, estado: string): Tabla
  {
    if estado in p.acciones then p.acciones[estado] else []
  }

  /** `coste_accion`: the registered cost, or `infinito` when the state or the action is missing from `costes`. */
  function CosteAccion(p: Problema, estado: string, accion: string): (r: int)
    ensures estado in p.costes && accion in p.costes[estado] ==> r == p.costes[estado][accion]
    ensures !(estado in p.costes && accion in p.costes[estado]) ==> r == p.infinito
  {
    if estado !in p.costes then p.infinito
    else if accion !in p.costes[estado] then p.infinito
    else p.costes[estado][accion]
  }

  // ---------------------------------------------------------------------------
  // Nodes and the tree
  // ---------------------------------------------------------------------------

  /**
   * A node: its state, the action that produced it, the actions it can take
   * (`{}`/None as the empty row), parent and children (arena indices), path
   * cost, and the fields only `grafos_simple.py`'s nodes have (heuristics,
   * heuristic plus cost per goal, `alfa`, `beta`), left empty elsewhere.
   */
  datatype Nodo = Nodo(
    estado: string,
    accion: Option<string>,
    acciones: Tabla,
    padre: Option<nat>,
    hijos: seq<nat>,
    coste: int,
    heuristicas: map<Clave, int>,
    valores: map<Clave, int>,
    alfa: int,
    beta: int)

  /** `Nodo(estado, accion, acciones, padre)`: no children, cost 0, empty tables, `alfa = beta = 0`. */
  function NodoNuevo(estado: string, accion: Option<string>, acciones: Tabla, padre: Option<nat>): Nodo
  {
    Nodo(estado, accion, acciones, padre, [], 0, map[], map[], 0, 0)
  }

  /** Node `i` is linked sensibly: a parent is an older node and the node has an action, children are nodes. */
  predicate Enlazado(nodos: seq<Nodo>, i: nat)
    requires i < |nodos|
  {
    (nodos[i].padre.Some? ==> nodos[i].padre.value < i && nodos[i].accion.Some?)
    && forall k :: 0 <= k < |nodos[i].hijos| ==> nodos[i].hijos[k] < |nodos|
  }

  /** Every node of the arena is linked sensibly, so every parent chain ends at a root. */
  predicate Arena(nodos: seq<Nodo>)
  {
    forall i :: 0 <= i < |nodos| ==> Enlazado(nodos, i)
  }

  /** The cost of the path from the root to node `i`: 0 at a root, else the parent's path cost plus the cost of the action taken from the parent's state. */
  function CosteRuta(p: Problema, nodos: seq<Nodo>, i: nat): int
    requires Arena(nodos) && i < |nodos|
    decreases i
  {
    assert Enlazado(nodos, i);
    match nodos[i].padre
    case None => 0
    case Some(j) => CosteRuta(p, nodos, j) + CosteAccion(p, nodos[j].estado, nodos[i].accion.value)
  }

  /** Number of ancestors of node `i`: 0 for a root. */
  function Nivel(nodos: seq<Nodo>, i: nat): nat
    requires Arena(nodos) && i < |nodos|
    decreases i
  {
    assert Enlazado(nodos, i);
    match nodos[i].padre
    case None => 0
    case Some(j) => Nivel(nodos, j) + 1
  }

  /** Every node's `coste` is its path cost. */
  predicate CostesExactos(p: Problema, nodos: seq<Nodo>)
    requires Arena(nodos)
  {
    forall j :: 0 <= j < |nodos| ==> nodos[j].coste == CosteRuta(p, nodos, j)
  }

  /** The nodes of `viejos` keep their state, action and parent in `nuevos`. */
  predicate MismaForma(viejos: seq<Nodo>, nuevos: seq<Nodo>)
  {
    |viejos| <= |nuevos| &&
    forall j :: 0 <= j < |viejos| ==>
      nuevos[j].estado == viejos[j].estado && nuevos[j].accion == viejos[j].accion && nuevos[j].padre == viejos[j].padre
  }

  /** Path costs and levels of old nodes do not change when the tree grows around them. */
  lemma {:induction false} CosteRutaEstable(p: Problema, viejos: seq<Nodo>, nuevos: seq<Nodo>, i: nat)
    requires Arena(viejos) && Arena(nuevos) && MismaForma(viejos, nuevos) && i < |viejos|
    ensures CosteRuta(p, nuevos, i) == CosteRuta(p, viejos, i)
    ensures Nivel(nuevos, i) == Nivel(viejos, i)
    decreases i
  {
    assert Enlazado(viejos, i);
    if viejos[i].padre.Some? {
      CosteRutaEstable(p, viejos, nuevos, viejos[i].padre.value);
    }
  }

  /** Replacing a node by one with the same parent and action, and children among the nodes, keeps the arena. */
  lemma ArenaCambia(nodos: seq<Nodo>, i: nat, n: Nodo)
    requires Arena(nodos) && i < |nodos|
    requires n.padre == nodos[i].padre && n.accion == nodos[i].accion
    requires forall k :: 0 <= k < |n.hijos| ==> n.hijos[k] < |nodos|
    ensures Arena(nodos[i := n])
  {
    var nuevos := nodos[i := n];
    forall j | 0 <= j < |nuevos| ensures Enlazado(nuevos, j) {
      assert Enlazado(nodos, j);
    }
  }

  /** The cost `grafos.py`'s `expandir` starts from: the parent's cost, 0 at a root. */
  function CosteDelPadre(nodos: seq<Nodo>, i: nat): int
    requires Arena(nodos) && i < |nodos|
  {
    assert Enlazado(nodos, i);
    if nodos[i].padre.Some? then nodos[nodos[i].padre.value].coste else 0
  }

  /** The actions `expandir` iterates over: the node's own, or the state's row when it has none. */
  function AccionesEfectivas(p: Problema, n: Nodo): Tabla
  {
    if n.acciones != [] then n.acciones else FilaDe(p, n.estado)
  }

  /** The node's own actions, when it has any, are its state's row (how every node is built). */
  predicate AccionesDeTabla(p: Problema, n: Nodo)
  {
    n.acciones == [] || (n.estado in p.acciones && n.acciones == p.acciones[n.estado])
  }

  /** The child `expandir` builds for one action, with the given cost. */
  function Hijo(p: Problema, i: nat, a: (string, string), coste: int): Nodo
  {
    NodoNuevo(a.1, Some(a.0), FilaDe(p, a.1), Some(i)).(coste := coste)
  }

  /** The children `expandir` builds for node `i`, one per action in order, each costed `base` plus the cost of its action. */
  function HijosDesde(p: Problema, nodos: seq<Nodo>, i: nat, base: int): (r: seq<Nodo>)
    requires i < |nodos|
    ensures |r| == |AccionesEfectivas(p, nodos[i])|
    ensures forall k :: 0 <= k < |r| ==>
      r[k].padre == Some(i) && r[k].accion == Some(AccionesEfectivas(p, nodos[i])[k].0)
      && r[k].estado == AccionesEfectivas(p, nodos[i])[k].1 && r[k].hijos == []
      && r[k].coste == base + CosteAccion(p, nodos[i].estado, AccionesEfectivas(p, nodos[i])[k].0)
  {
    var t := AccionesEfectivas(p, nodos[i]);
    seq(|t|, k requires 0 <= k < |t| => Hijo(p, i, t[k], base + CosteAccion(p, nodos[i].estado, t[k].0)))
  }

  /**
   * The children `expandir` of `grafos.py` gives node `i`: each is costed as
   * the PARENT of `i`'s cost (0 at a root) plus the cost of the action, the
   * grandparent's cost rather than `i`'s own.
   */
  function HijosEscritos(p: Problema, nodos: seq<Nodo>, i: nat): seq<Nodo>
    requires Arena(nodos) && i < |nodos|
  {
    HijosDesde(p, nodos, i, CosteDelPadre(nodos, i))
  }

  /** The children as intended: each costs `i`'s own cost plus the cost of the action. */
  function HijosCorregidos(p: Problema, nodos: seq<Nodo>, i: nat): seq<Nodo>
    requires i < |nodos|
  {
    HijosDesde(p, nodos, i, nodos[i].coste)
  }

  /** Expanding an exactly costed node as intended gives every child its path cost. */
  lemma HijosCorregidosExactos(p: Problema, nodos: seq<Nodo>, i: nat, x: Nodo)
    requires Arena(nodos) && i < |nodos| && CostesExactos(p, nodos)
    requires x.estado == nodos[i].estado && x.accion == nodos[i].accion && x.padre == nodos[i].padre
    requires x.coste == nodos[i].coste
    ensures var nuevos := nodos[i := x] + HijosCorregidos(p, nodos, i);
      Arena(nuevos) ==> CostesExactos(p, nuevos)
  {
    var nuevos := nodos[i := x] + HijosCorregidos(p, nodos, i);
    if Arena(nuevos) {
      assert MismaForma(nodos, nuevos);
      forall j | 0 <= j < |nuevos| ensures nuevos[j].coste == CosteRuta(p, nuevos, j) {
        if j < |nodos| {
          CosteRutaEstable(p, nodos, nuevos, j);
        } else {
          CosteRutaEstable(p, nodos, nuevos, i);
          assert nuevos[j].padre == Some(i);
        }
      }
    }
  }

  /** Expanding a second time builds the same children: the reset `hijos` and the cached actions change nothing. */
  lemma ExpandirRepetido(p: Problema, nodos: seq<Nodo>, nuevos: seq<Nodo>, i: nat)
    requires Arena(nodos) && Arena(nuevos) && i < |nodos| && MismaForma(nodos, nuevos)
    requires nuevos[i].acciones == AccionesEfectivas(p, nodos[i])
    requires CosteDelPadre(nuevos, i) == CosteDelPadre(nodos, i)
    ensures HijosEscritos(p, nuevos, i) == HijosEscritos(p, nodos, i)
  {
  }

  /** Looking up the action of the `k`-th entry of a state's row gives that entry's target. */
  lemma ResultadoDeFila(p: Problema, estado: string, k: nat)
    requires estado in p.acciones && k < |p.acciones[estado]|
    ensures Resultado(p, estado, p.acciones[estado][k].0) == Some(p.acciones[estado][k].1)
  {
  }

  /** One turn of `expandir`'s loop: allocating the child and linking it through `agregar` appends the next child record. */
  lemma PasoExpandir(viejos: seq<Nodo>, i: nat, hs: seq<nat>, escritos: seq<Nodo>, k: nat, nodos: seq<Nodo>, hijo: Nodo)
    requires i < |viejos| && k < |escritos|
    requires nodos == viejos[i := viejos[i].(hijos := viejos[i].hijos + hs)] + escritos[..k]
    requires escritos[k] == hijo.(padre := Some(i))
    ensures var h := |nodos|;
      var m := nodos + [hijo];
      var e := m[h := m[h].(padre := Some(i))];
      e[i := e[i].(hijos := e[i].hijos + [h])] == viejos[i := viejos[i].(hijos := viejos[i].hijos + (hs + [h]))] + escritos[..k + 1]
  {
    var h := |nodos|;
    assert escritos[..k + 1] == escritos[..k] + [escritos[k]];
    assert viejos[i].hijos + hs + [h] == viejos[i].hijos + (hs + [h]);
  }

  /** Appending children of node `i` and listing them as its children keeps the arena. */
  lemma ArenaExpandida(viejos: seq<Nodo>, i: nat, x: Nodo, escritos: seq<Nodo>)
    requires Arena(viejos) && i < |viejos|
    requires x.padre == viejos[i].padre && x.accion == viejos[i].accion
    requires forall k :: 0 <= k < |x.hijos| ==> x.hijos[k] < |viejos| + |escritos|
    requires forall k :: 0 <= k < |escritos| ==> escritos[k].padre == Some(i) && escritos[k].accion.Some? && escritos[k].hijos == []
    ensures Arena(viejos[i := x] + escritos)
  {
    var nuevos := viejos[i := x] + escritos;
    forall j | 0 <= j < |nuevos| ensures Enlazado(nuevos, j) {
      if j < |viejos| {
        assert Enlazado(viejos, j);
      } else {
        assert nuevos[j] == escritos[j - |viejos|];
      }
    }
  }

  /** The arena after appending `hijo` and adding its index to the children of node `i`. */
  function Colgado(nodos: seq<Nodo>, i: nat, hijo: Nodo): seq<Nodo>
    requires i < |nodos|
  {
    nodos[i := nodos[i].(hijos := nodos[i].hijos + [|nodos|])] + [hijo]
  }

  // ---------------------------------------------------------------------------
  // The tree, updated in place
  // ---------------------------------------------------------------------------

  class Arbol {
    /** Node objects, by index. */
    var nodos: seq<Nodo>

    ghost predicate Valido()
      reads this
    {
      Arena(nodos)
    }

    constructor ()
      ensures nodos == [] && Valido()
    {
      nodos := [];
    }

    /** Allocates a node object and gives its index. */
    method Nuevo(n: Nodo) returns (i: nat)
      modifies this
      ensures i == |old(nodos)| && nodos == old(nodos) + [n]
    {
      i := |nodos|;
      nodos := nodos + [n];
    }

    /** `Problema.coste_camino(nodo)`: climbs the parent chain adding the cost of each action. */
    method CosteCamino(p: Problema, i: nat) returns (total: int)
      requires Valido() && i < |nodos|
      ensures total == CosteRuta(p, nodos, i)
    {
      total := 0;
      var n: nat := i;
      while nodos[n].padre.Some?
        invariant n < |nodos|
        invariant total + CosteRuta(p, nodos, n) == CosteRuta(p, nodos, i)
        decreases n
      {
        assert Enlazado(nodos, n);
        var padre := nodos[n].padre.value;
        total := total + CosteAccion(p, nodos[padre].estado, nodos[n].accion.value);
        n := padre;
      }
    }

    /** Allocates `hijo`, whose parent is already node `padre`, and appends it to `padre`'s children. */
    method Colgar(padre: nat, hijo: Nodo) returns (h: nat)
      requires padre < |nodos|
      modifies this
      ensures h == |old(nodos)| && nodos == Colgado(old(nodos), padre, hijo)
    {
      h := |nodos|;
      nodos := nodos + [hijo];
      nodos := nodos[padre := nodos[padre].(hijos := nodos[padre].hijos + [h])];
      assert nodos == Colgado(old(nodos), padre, hijo);
    }

    /** `agregar(hijo)`: the child's parent becomes `padre`, it is appended as `padre`'s last child, and it is returned. */
    method Agregar(padre: nat, hijo: nat) returns (r: nat)
      requires padre < |nodos| && hijo < |nodos|
      modifies this
      ensures r == hijo
      ensures var enlazado := old(nodos)[hijo := old(nodos)[hijo].(padre := Some(padre))];
        nodos == enlazado[padre := enlazado[padre].(hijos := enlazado[padre].hijos + [hijo])]
      ensures old(Valido()) && padre < hijo && old(nodos)[hijo].accion.Some? ==> Valido()
    {
      nodos := nodos[hijo := nodos[hijo].(padre := Some(padre))];
      nodos := nodos[padre := nodos[padre].(hijos := nodos[padre].hijos + [hijo])];
      r := hijo;
      if old(Valido()) && padre < hijo && old(nodos)[hijo].accion.Some? {
        forall j | 0 <= j < |nodos| ensures Enlazado(nodos, j) {
          assert Enlazado(old(nodos), j);
        }
      }
    }

    /**
     * The loop of `expandir`: for each action of the row of `estado`, in order,
     * a child costed `base` plus the action is allocated and linked to node
     * `i` through `agregar`.
     */
    method AgregarHijos(p: Problema, i: nat, estado: string, base: int, acciones: Tabla) returns (hijos: seq<nat>)
      requires i < |nodos| && estado in p.acciones && acciones == p.acciones[estado]
      modifies this
      ensures hijos == seq(|acciones|, m => |old(nodos)| + m)
      ensures nodos == old(nodos)[i := old(nodos)[i].(hijos := old(nodos)[i].hijos + hijos)]
                       + seq(|acciones|, k requires 0 <= k < |acciones| =>
                               Hijo(p, i, acciones[k], base + CosteAccion(p, estado, acciones[k].0)))
    {
      ghost var viejos := nodos;
      ghost var escritos := seq(|acciones|, k requires 0 <= k < |acciones| =>
                                  Hijo(p, i, acciones[k], base + CosteAccion(p, estado, acciones[k].0)));
      hijos := [];
      assert viejos[i].hijos + hijos == viejos[i].hijos;
      var k := 0;
      while k < |acciones|
        invariant 0 <= k <= |acciones| && |nodos| == |viejos| + k
        invariant hijos == seq(k, m => |viejos| + m)
        invariant nodos == viejos[i := viejos[i].(hijos := viejos[i].hijos + hijos)] + escritos[..k]
      {
        var accion := acciones[k].0;
        var nuevoEstado := Resultado(p, estado, accion);
        ResultadoDeFila(p, estado, k);
        var hijo := NodoNuevo(nuevoEstado.value, Some(accion), FilaDe(p, nuevoEstado.value), None);
        hijo := hijo.(coste := base + CosteAccion(p, estado, accion));
        PasoExpandir(viejos, i, hijos, escritos, k, nodos, hijo);
        var h := Nuevo(hijo);
        var _ := Agregar(i, h);
        hijos := hijos + [h];
        k := k + 1;
      }
      assert escritos[..k] == escritos;
    }

    /**
     * The body of `expandir`, starting the children's costs at `base`: resets
     * the children, takes the state's row when the node has no actions yet (no
     * children if the table has none), and adds one child per action, in
     * order, through `agregar`.
     */
    method ExpandirDesde(p: Problema, i: nat, base: int) returns (hijos: seq<nat>)
      requires Valido() && i < |nodos| && AccionesDeTabla(p, nodos[i])
      modifies this
      ensures Valido()
      ensures hijos == seq(|hijos|, k => |old(nodos)| + k)
      ensures nodos == old(nodos)[i := old(nodos[i]).(acciones := AccionesEfectivas(p, old(nodos[i])), hijos := hijos)]
                       + HijosDesde(p, old(nodos), i, base)
    {
      ghost var viejos := nodos;
      ArenaCambia(nodos, i, nodos[i].(hijos := []));
      nodos := nodos[i := nodos[i].(hijos := [])];
      hijos := [];
      if nodos[i].acciones == [] {
        if nodos[i].estado !in p.acciones {
          assert nodos == viejos[i := viejos[i].(acciones := AccionesEfectivas(p, viejos[i]), hijos := [])] + [];
          return;
        }
        nodos := nodos[i := nodos[i].(acciones := p.acciones[nodos[i].estado])];
      }
      var acciones := nodos[i].acciones;
      var estado := nodos[i].estado;
      assert acciones == AccionesEfectivas(p, viejos[i]);
      ghost var x := viejos[i].(acciones := acciones);
      ghost var escritos := HijosDesde(p, viejos, i, base);
      assert escritos == seq(|acciones|, k requires 0 <= k < |acciones| =>
                               Hijo(p, i, acciones[k], base + CosteAccion(p, estado, acciones[k].0)));
      assert nodos == viejos[i := x.(hijos := [])];
      hijos := AgregarHijos(p, i, estado, base, acciones);
      assert [] + hijos == hijos;
      assert nodos == viejos[i := x.(hijos := hijos)] + escritos;
      ArenaExpandida(viejos, i, x.(hijos := hijos), escritos);
    }

    /**
     * `expandir` of `grafos.py` (the problem must have actions and costs):
     * the children start from the cost of the node's parent.
     */
    method Expandir(p: Problema, i: nat) returns (hijos: seq<nat>)
      requires Valido() && i < |nodos| && AccionesDeTabla(p, nodos[i])
      requires p.acciones != map[] && p.costes != map[]
      modifies this
      ensures Valido()
      ensures hijos == seq(|hijos|, k => |old(nodos)| + k)
      ensures nodos == old(nodos)[i := old(nodos[i]).(acciones := AccionesEfectivas(p, old(nodos[i])), hijos := hijos)]
                       + HijosEscritos(p, old(nodos), i)
    {
      hijos := ExpandirDesde(p, i, CosteDelPadre(nodos, i));
    }

    /** `expandir` as intended: the children start from the node's own cost, so exact costs stay exact. */
    method ExpandirCorregido(p: Problema, i: nat) returns (hijos: seq<nat>)
      requires Valido() && i < |nodos| && AccionesDeTabla(p, nodos[i])
      requires p.acciones != map[] && p.costes != map[]
      modifies this
      ensures Valido()
      ensures hijos == seq(|hijos|, k => |old(nodos)| + k)
      ensures nodos == old(nodos)[i := old(nodos[i]).(acciones := AccionesEfectivas(p, old(nodos[i])), hijos := hijos)]
                       + HijosCorregidos(p, old(nodos), i)
      ensures old(CostesExactos(p, nodos)) ==> CostesExactos(p, nodos)
    {
      ghost var viejos := nodos;
      hijos := ExpandirDesde(p, i, nodos[i].coste);
      if CostesExactos(p, viejos) {
        HijosCorregidosExactos(p, viejos, i, viejos[i].(acciones := AccionesEfectivas(p, viejos[i]), hijos := hijos));
      }
    }
  }

  // ---------------------------------------------------------------------------
  // The example of `grafos.py`: a simplified road map of the Iberian peninsula
  // ---------------------------------------------------------------------------

  /** Roads between cities, in the order the example lists them. */
  const CARRETERAS: map<string, Tabla> := map[
    "A Coruña" := [("sur", "Lisboa"), ("este", "Bilbao")],
    "Bilbao" := [("sur", "Madrid"), ("este", "Barcelona"), ("oeste", "A Coruña")],
    "Barcelona" := [("sur", "Valencia"), ("oeste", "Bilbao")],
    "Lisboa" := [("norte", "A Coruña"), ("sur", "Faro"), ("este", "Madrid")],
    "Madrid" := [("norte", "Bilbao"), ("sur", "Sevilla"), ("este", "Valencia"), ("oeste", "Lisboa")],
    "Valencia" := [("norte", "Barcelona"), ("sur", "Granada"), ("oeste", "Madrid")],
    "Faro" := [("norte", "Lisboa"), ("este", "Sevilla")],
    "Sevilla" := [("norte", "Madrid"), ("este", "Granada"), ("oeste", "Faro")],
    "Granada" := [("norte", "Valencia"), ("oeste", "Sevilla")]]

  /** Road kilometres of each move. */
  const KILOMETROS: map<string, map<string, int>> := map[
    "A Coruña" := map["sur" := 608, "este" := 545],
    "Bilbao" := map["sur" := 408, "este" := 613, "oeste" := 545],
    "Barcelona" := map["sur" := 350, "oeste" := 613],
    "Lisboa" := map["norte" := 608, "sur" := 278, "este" := 624],
    "Madrid" := map["norte" := 408, "sur" := 534, "este" := 357, "oeste" := 624],
    "Valencia" := map["norte" := 350, "sur" := 487, "oeste" := 357],
    "Faro" := map["norte" := 278, "este" := 200],
    "Sevilla" := map["norte" := 534, "este" := 252, "oeste" := 200],
    "Granada" := map["norte" := 487, "oeste" := 252]]

  /** From Faro to Barcelona. */
  const PENINSULA: Problema := Problema("Faro", ["Barcelona"], CARRETERAS, KILOMETROS, map[], INFINITO)

  /** The route the example builds by hand: Faro, east to Sevilla, north to Madrid, east to Valencia, north to Barcelona. */
  function RutaEjemplo(): (r: seq<Nodo>)
    ensures Arena(r) && |r| == 5
  {
    [NodoNuevo("Faro", None, CARRETERAS["Faro"], None).(hijos := [1]),
     NodoNuevo("Sevilla", Some("este"), CARRETERAS["Sevilla"], Some(0)).(hijos := [2]),
     NodoNuevo("Madrid", Some("norte"), CARRETERAS["Madrid"], Some(1)).(hijos := [3]),
     NodoNuevo("Valencia", Some("este"), CARRETERAS["Valencia"], Some(2)).(hijos := [4]),
     NodoNuevo("Barcelona", Some("norte"), CARRETERAS["Barcelona"], Some(3))]
  }

  /** Along the example route each step is a road of the map. */
  lemma RutaEjemploPasos()
    ensures PENINSULA.acciones == CARRETERAS
    ensures forall j :: 1 <= j < 5 ==>
      RutaEjemplo()[j].padre == Some(j - 1)
      && Resultado(PENINSULA, RutaEjemplo()[j - 1].estado, RutaEjemplo()[j].accion.value) == Some(RutaEjemplo()[j].estado)
  {
  }

  /** The example trip is 1441 km and ends at the goal, and Madrid is not a goal. */
  lemma RutaEjemploCuesta()
    ensures CosteRuta(PENINSULA, RutaEjemplo(), 4) == 1441
    ensures EsObjetivo(PENINSULA, RutaEjemplo()[4].estado) && !EsObjetivo(PENINSULA, RutaEjemplo()[2].estado)
  {
    var r := RutaEjemplo();
    assert CosteRuta(PENINSULA, r, 1) == 200;
    assert CosteRuta(PENINSULA, r, 2) == 734;
    assert CosteRuta(PENINSULA, r, 3) == 1091;
  }

  /** Faro expanded once by `expandir`: the root, then Lisboa and Sevilla at their exact costs. */
  function FaroExpandido(): (r: seq<Nodo>)
    ensures Arena(r) && |r| == 3
  {
    var raiz := NodoNuevo("Faro", None, CARRETERAS["Faro"], None);
    [raiz.(hijos := [1, 2])] + HijosEscritos(PENINSULA, [raiz], 0)
  }

  /**
   * Expanding Sevilla (reached from Faro for 200 km) as written costs the move
   * to Madrid at 534 km, the grandparent's 0 plus 534, while the path is
   * 734 km long; the intended expansion gives 734. Costs start exact and
   * `expandir` breaks them.
   */
  lemma CosteAbueloFalla()
    ensures CostesExactos(PENINSULA, FaroExpandido()) && FaroExpandido()[2].estado == "Sevilla"
    ensures var a := FaroExpandido();
      var b := a[2 := a[2].(hijos := [3, 4, 5])] + HijosEscritos(PENINSULA, a, 2);
      Arena(b) && b[3].estado == "Madrid" && b[3].coste == 534 && CosteRuta(PENINSULA, b, 3) == 734
      && !CostesExactos(PENINSULA, b)
    ensures HijosCorregidos(PENINSULA, FaroExpandido(), 2)[0].coste == 734
  {
    var a := FaroExpandido();
    assert CosteRuta(PENINSULA, a, 1) == 278;
    assert CosteRuta(PENINSULA, a, 2) == 200;
    var b := a[2 := a[2].(hijos := [3, 4, 5])] + HijosEscritos(PENINSULA, a, 2);
    ArenaExpandida(a, 2, a[2].(hijos := [3, 4, 5]), HijosEscritos(PENINSULA, a, 2));
    assert b[2].padre == Some(0) && b[2].accion == Some("este");
    assert CosteRuta(PENINSULA, b, 2) == 200;
    assert b[3].padre == Some(2) && b[3].accion == Some("norte");
    assert CosteRuta(PENINSULA, b, 3) == 734;
  }
}
