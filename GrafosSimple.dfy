/**
 * `busqueda/grafos_simple.py`: the variant of the search structures with
 * heuristics. The problem constructor fills in default costs and heuristics,
 * `expandir` also gives each child its heuristic estimates and their sums
 * with the path cost (`valores`), and `hijo_mejor` scans the children for
 * the best one under a metric.
 *
 * The lookups `es_objetivo`, `resultado`, `coste_accion` and `coste_camino`
 * are those of `Grafos`, and nodes live in the same arena, `Grafos.Arbol`.
 */
module GrafosSimple {
  import opened Tipos
  import opened Grafos

  // ---------------------------------------------------------------------------
  // The constructor's defaults
  // ---------------------------------------------------------------------------

  /** The action names of a row. */
  function Nombres(t: seq<(string, string)>): (r: set<string>)
    ensures forall a :: a in r <==> exists k :: 0 <= k < |t| && t[k].0 == a
  {
    set k | 0 <= k < |t| :: t[k].0
  }

  /** One unit of cost per action of a row. */
  function Unitarios(t: seq<(string, string)>): (r: map<string, int>)
    ensures r.Keys == Nombres(t) && forall a :: a in r ==> r[a] == 1
  {
    map a | a in Nombres(t) :: 1
  }

  /** Adding an action to a row adds its unit cost. */
  lemma UnitariosAnade(t: seq<(string, string)>, x: (string, string))
    ensures Unitarios(t + [x]) == Unitarios(t)[x.0 := 1]
  {
    assert Nombres(t + [x]) == Nombres(t) + {x.0} by {
      forall a ensures a in Nombres(t + [x]) <==> a in Nombres(t) + {x.0} {
        if a in Nombres(t) {
          var k :| 0 <= k < |t| && t[k].0 == a;
          assert (t + [x])[k].0 == a;
        }
        if a == x.0 {
          assert (t + [x])[|t|].0 == a;
        }
        if a in Nombres(t + [x]) {
          var k :| 0 <= k < |t + [x]| && (t + [x])[k].0 == a;
          if k < |t| { assert t[k].0 == a; }
        }
      }
    }
  }

  /** The default `costes`: every action of every row costs 1. */
  function CostesUnitarios(acciones: map<string, Tabla>): (r: map<string, map<string, int>>)
    ensures r.Keys == acciones.Keys && forall s :: s in r ==> r[s] == Unitarios(acciones[s])
  {
    map s | s in acciones :: Unitarios(acciones[s])
  }

  /** The default `heuristicas` as written: `infinito` for every goal, keyed by the goal itself. */
  function HeuristicasPorDefecto(acciones: map<string, Tabla>, objetivos: seq<string>, infinito: int): (r: map<string, map<Clave, int>>)
    ensures r.Keys == acciones.Keys
    ensures forall s, c :: s in r && c in r[s] ==> c.Objeto? && c.nombre in objetivos && r[s][c] == infinito
    ensures forall s, g :: s in r && g in objetivos ==> Objeto(g) in r[s]
  {
    map s | s in acciones :: map g | g in objetivos :: Objeto(g) := infinito
  }

  /** The default `heuristicas` as evidently intended: `infinito` for every goal, keyed by the goal's name. */
  function HeuristicasCorregidas(acciones: map<string, Tabla>, objetivos: seq<string>, infinito: int): (r: map<string, map<Clave, int>>)
    ensures r.Keys == acciones.Keys
    ensures forall s, c :: s in r && c in r[s] ==> c.Nombre? && c.nombre in objetivos && r[s][c] == infinito
    ensures forall s, g :: s in r && g in objetivos ==> Nombre(g) in r[s]
  {
    map s | s in acciones :: map g | g in objetivos :: Nombre(g) := infinito
  }

  /** The default costs, filled in state by state and action by action. */
  method CostesPorDefecto(acciones: map<string, Tabla>) returns (c: map<string, map<string, int>>)
    ensures c == CostesUnitarios(acciones)
  {
    c := map[];
    var pendientes := acciones.Keys;
    while pendientes != {}
      invariant pendientes <= acciones.Keys && c.Keys == acciones.Keys - pendientes
      invariant forall s :: s in c ==> c[s] == Unitarios(acciones[s])
      decreases pendientes
    {
      var s :| s in pendientes;
      var t := acciones[s];
      var fila: map<string, int> := map[];
      var k := 0;
      while k < |t|
        invariant 0 <= k <= |t| && fila == Unitarios(t[..k])
      {
        UnitariosAnade(t[..k], t[k]);
        assert t[..k + 1] == t[..k] + [t[k]];
        fila := fila[t[k].0 := 1];
        k := k + 1;
      }
      assert t[..k] == t;
      c := c[s := fila];
      pendientes := pendientes - {s};
    }
  }

  /** The default heuristics, filled in state by state and goal by goal, keyed by the goal itself. */
  method HeuristicasIniciales(acciones: map<string, Tabla>, objetivos: seq<string>, infinito: int)
    returns (h: map<string, map<Clave, int>>)
    ensures h == HeuristicasPorDefecto(acciones, objetivos, infinito)
  {
    h := map[];
    var pendientes := acciones.Keys;
    while pendientes != {}
      invariant pendientes <= acciones.Keys && h.Keys == acciones.Keys - pendientes
      invariant forall s :: s in h ==> h[s] == map g | g in objetivos :: Objeto(g) := infinito
      decreases pendientes
    {
      var s :| s in pendientes;
      var fila: map<Clave, int> := map[];
      var k := 0;
      while k < |objetivos|
        invariant 0 <= k <= |objetivos| && fila == map g | g in objetivos[..k] :: Objeto(g) := infinito
      {
        assert objetivos[..k + 1] == objetivos[..k] + [objetivos[k]];
        fila := fila[Objeto(objetivos[k]) := infinito];
        k := k + 1;
      }
      assert objetivos[..k] == objetivos;
      h := h[s := fila];
      pendientes := pendientes - {s};
    }
  }

  /**
   * The constructor of `grafos_simple.py`: it validates nothing; missing or
   * empty `costes` become one unit per action of the table, and missing or
   * empty `heuristicas` become `infinito` for every state of the table and
   * every goal.
   */
  method NuevoProblema(estadoInicial: string, objetivos: seq<string>, acciones: map<string, Tabla>,
                       costes: Option<map<string, map<string, int>>>,
                       heuristicas: Option<map<string, map<Clave, int>>>, infinito: int) returns (p: Problema)
    ensures p.estadoInicial == estadoInicial && p.objetivos == objetivos && p.acciones == acciones && p.infinito == infinito
    ensures p.costes == if costes.Some? && costes.value != map[] then costes.value else CostesUnitarios(acciones)
    ensures p.heuristicas == if heuristicas.Some? && heuristicas.value != map[] then heuristicas.value
                             else HeuristicasPorDefecto(acciones, objetivos, infinito)
  {
    var c: map<string, map<string, int>>;
    if costes.Some? && costes.value != map[] {
      c := costes.value;
    } else {
      c := CostesPorDefecto(acciones);
    }
    var h: map<string, map<Clave, int>>;
    if heuristicas.Some? && heuristicas.value != map[] {
      h := heuristicas.value;
    } else {
      h := HeuristicasIniciales(acciones, objetivos, infinito);
    }
    p := Problema(estadoInicial, objetivos, acciones, c, h, infinito);
  }

  /** With the default costs every action of the table costs 1, and anything else `infinito`. */
  lemma CosteUnitario(p: Problema, s: string, a: string)
    requires p.costes == CostesUnitarios(p.acciones)
    ensures CosteAccion(p, s, a) == if s in p.acciones && a in Nombres(p.acciones[s]) then 1 else p.infinito
  {
  }

  /**
   * With the default heuristics as written no lookup by a goal's name
   * succeeds: every `valores`/`heuristicas` access by `objetivo.nombre`
   * (in `hijo_mejor`, `sacar_siguiente` and the informed searches) fails.
   */
  lemma DefectoInalcanzable(acciones: map<string, Tabla>, objetivos: seq<string>, infinito: int, s: string, g: string)
    requires s in acciones
    ensures Nombre(g) !in HeuristicasPorDefecto(acciones, objetivos, infinito)[s]
    ensures g in objetivos ==> Objeto(g) in HeuristicasPorDefecto(acciones, objetivos, infinito)[s]
  {
  }

  /** The intended defaults answer every lookup by a goal's name with `infinito`. */
  lemma DefectoCorregido(acciones: map<string, Tabla>, objetivos: seq<string>, infinito: int, s: string, g: string)
    requires s in acciones && g in objetivos
    ensures Nombre(g) in HeuristicasCorregidas(acciones, objetivos, infinito)[s]
    ensures HeuristicasCorregidas(acciones, objetivos, infinito)[s][Nombre(g)] == infinito
  {
  }

  // ---------------------------------------------------------------------------
  // expandir
  // ---------------------------------------------------------------------------

  /** `{g: h + coste for g, h in heuristicas.items()}`. */
  function Suma(h: map<Clave, int>, coste: int): (r: map<Clave, int>)
    ensures r.Keys == h.Keys && forall g :: g in h ==> r[g] == h[g] + coste
  {
    map g | g in h :: h[g] + coste
  }

  /** Every target of the node's actions has a row of heuristics (`expandir` raises `KeyError` otherwise). */
  predicate ConHeuristicas(p: Problema, n: Nodo)
  {
    forall k :: 0 <= k < |AccionesEfectivas(p, n)| ==> AccionesEfectivas(p, n)[k].1 in p.heuristicas
  }

  /**
   * The child `expandir` of `grafos_simple.py` builds for action `a` of node
   * `i`: the child of `grafos.py` costed `base` plus the action, carrying its
   * state's heuristics and, per goal, heuristic plus cost.
   */
  function HijoSimple(p: Problema, i: nat, estado: string, base: int, a: (string, string)): Nodo
    requires a.1 in p.heuristicas
  {
    var c := base + CosteAccion(p, estado, a.0);
    Hijo(p, i, a, c).(heuristicas := p.heuristicas[a.1], valores := Suma(p.heuristicas[a.1], c))
  }

  /**
   * The children `expandir` of `grafos_simple.py` gives node `i`: those of
   * `grafos.py` (same order, the same grandparent cost), each also carrying
   * its state's heuristics and, per goal, heuristic plus cost.
   */
  function HijosSimples(p: Problema, nodos: seq<Nodo>, i: nat): (r: seq<Nodo>)
    requires Arena(nodos) && i < |nodos| && ConHeuristicas(p, nodos[i])
    ensures |r| == |AccionesEfectivas(p, nodos[i])|
    ensures forall k :: 0 <= k < |r| ==>
      r[k] == HijosEscritos(p, nodos, i)[k].(heuristicas := r[k].heuristicas, valores := r[k].valores)
      && r[k].heuristicas == p.heuristicas[r[k].estado]
      && r[k].valores.Keys == r[k].heuristicas.Keys
      && forall g :: g in r[k].valores ==> r[k].valores[g] == r[k].heuristicas[g] + r[k].coste
  {
    var t := AccionesEfectivas(p, nodos[i]);
    seq(|t|, k requires 0 <= k < |t| => HijoSimple(p, i, nodos[i].estado, CosteDelPadre(nodos, i), t[k]))
  }

  /** One turn of the loop of `expandir`: the child, built with its parent, is appended to the arena and to the children. */
  lemma PasoDirecto(viejos: seq<Nodo>, i: nat, hs: seq<nat>, escritos: seq<Nodo>, k: nat, nodos: seq<Nodo>)
    requires i < |viejos| && k < |escritos|
    requires nodos == viejos[i := viejos[i].(hijos := viejos[i].hijos + hs)] + escritos[..k]
    ensures Colgado(nodos, i, escritos[k])
            == viejos[i := viejos[i].(hijos := viejos[i].hijos + (hs + [|nodos|]))] + escritos[..k + 1]
  {
    assert escritos[..k + 1] == escritos[..k] + [escritos[k]];
    assert viejos[i].hijos + hs + [|nodos|] == viejos[i].hijos + (hs + [|nodos|]);
  }

  /**
   * The loop of `expandir`: for each action of the row of `estado`, in order,
   * a child is built with node `i` as its parent and appended to `i`'s
   * children.
   */
  method ColgarHijos(p: Problema, t: Arbol, i: nat, estado: string, base: int, acciones: Tabla) returns (hijos: seq<nat>)
    requires i < |t.nodos| && estado in p.acciones && acciones == p.acciones[estado]
    requires forall k :: 0 <= k < |acciones| ==> acciones[k].1 in p.heuristicas
    modifies t
    ensures hijos == seq(|acciones|, m => |old(t.nodos)| + m)
    ensures t.nodos == old(t.nodos)[i := old(t.nodos)[i].(hijos := old(t.nodos)[i].hijos + hijos)]
                       + seq(|acciones|, k requires 0 <= k < |acciones| => HijoSimple(p, i, estado, base, acciones[k]))
  {
    ghost var viejos := t.nodos;
    ghost var escritos := seq(|acciones|, k requires 0 <= k < |acciones| => HijoSimple(p, i, estado, base, acciones[k]));
    hijos := [];
    assert viejos[i].hijos + hijos == viejos[i].hijos;
    var k := 0;
    while k < |acciones|
      invariant 0 <= k <= |acciones| && |t.nodos| == |viejos| + k
      invariant hijos == seq(k, m => |viejos| + m)
      invariant t.nodos == viejos[i := viejos[i].(hijos := viejos[i].hijos + hijos)] + escritos[..k]
    {
      var accion := acciones[k].0;
      var nuevoEstado := Resultado(p, estado, accion);
      assert nuevoEstado == Some(acciones[k].1);
      var hijo := HijoSimple(p, i, estado, base, (accion, nuevoEstado.value));
      PasoDirecto(viejos, i, hijos, escritos, k, t.nodos);
      var h := t.Colgar(i, hijo);
      hijos := hijos + [h];
      k := k + 1;
    }
    assert escritos[..k] == escritos;
  }

  /**
   * `Nodo.expandir` of `grafos_simple.py`: resets the children, takes the
   * state's row when the node has none (no children if the table has none),
   * and appends one child per action, in order, with the parent already set.
   */
  method Expandir(p: Problema, t: Arbol, i: nat) returns (hijos: seq<nat>)
    requires t.Valido() && i < |t.nodos| && AccionesDeTabla(p, t.nodos[i]) && ConHeuristicas(p, t.nodos[i])
    modifies t
    ensures t.Valido()
    ensures hijos == seq(|hijos|, k => |old(t.nodos)| + k)
    ensures t.nodos == old(t.nodos)[i := old(t.nodos[i]).(acciones := AccionesEfectivas(p, old(t.nodos[i])), hijos := hijos)]
                       + HijosSimples(p, old(t.nodos), i)
  {
    ghost var viejos := t.nodos;
    var base := CosteDelPadre(t.nodos, i);
    ArenaCambia(t.nodos, i, t.nodos[i].(hijos := []));
    t.nodos := t.nodos[i := t.nodos[i].(hijos := [])];
    hijos := [];
    if t.nodos[i].acciones == [] {
      if t.nodos[i].estado !in p.acciones {
        assert t.nodos == viejos[i := viejos[i].(acciones := AccionesEfectivas(p, viejos[i]), hijos := [])] + [];
        return;
      }
      t.nodos := t.nodos[i := t.nodos[i].(acciones := p.acciones[t.nodos[i].estado])];
    }
    var acciones := t.nodos[i].acciones;
    var estado := t.nodos[i].estado;
    assert acciones == AccionesEfectivas(p, viejos[i]);
    ghost var x := viejos[i].(acciones := acciones);
    ghost var escritos := HijosSimples(p, viejos, i);
    assert escritos == seq(|acciones|, k requires 0 <= k < |acciones| => HijoSimple(p, i, estado, base, acciones[k]));
    assert t.nodos == viejos[i := x.(hijos := [])];
    hijos := ColgarHijos(p, t, i, estado, base, acciones);
    assert [] + hijos == hijos;
    assert t.nodos == viejos[i := x.(hijos := hijos)] + escritos;
    ArenaExpandida(viejos, i, x.(hijos := hijos), escritos);
  }

  // ---------------------------------------------------------------------------
  // Choosing the best node: hijo_mejor (and sacar_siguiente in Informada)
  // ---------------------------------------------------------------------------

  /** The metrics `hijo_mejor` knows. */
  const METRICAS_HIJO: set<string> := {"valor", "heuristica", "coste", "alfa", "beta"}

  /** The lookups a metric makes for a node and a goal succeed. */
  predicate Medible(nodos: seq<Nodo>, metrica: string, j: nat, g: string)
    requires j < |nodos|
  {
    (metrica == "valor" ==> Nombre(g) in nodos[j].valores)
    && (metrica == "heuristica" ==> Nombre(g) in nodos[j].heuristicas)
  }

  /** All those lookups succeed for every node of `xs` and every goal of `gs`. */
  predicate Medibles(nodos: seq<Nodo>, metrica: string, xs: seq<nat>, gs: seq<string>)
  {
    forall k, g :: 0 <= k < |xs| && g in gs ==> xs[k] < |nodos| && Medible(nodos, metrica, xs[k], g)
  }

  /** The lookups of one node of a measurable list succeed. */
  lemma MedibleEn(nodos: seq<Nodo>, metrica: string, xs: seq<nat>, gs: seq<string>, i: nat)
    requires Medibles(nodos, metrica, xs, gs) && i < |xs|
    ensures forall g :: g in gs ==> xs[i] < |nodos| && Medible(nodos, metrica, xs[i], g)
  {
  }

  /**
   * The quantity a metric compares, for a node and a goal (0 where the
   * lookup would fail; the operations require that it does not).
   */
  function Medida(p: Problema, nodos: seq<Nodo>, metrica: string, j: nat, g: string): int
    requires Arena(nodos)
  {
    if j >= |nodos| then 0
    else if metrica == "valor" then (if Nombre(g) in nodos[j].valores then nodos[j].valores[Nombre(g)] else 0)
    else if metrica == "heuristica" then (if Nombre(g) in nodos[j].heuristicas then nodos[j].heuristicas[Nombre(g)] else 0)
    else if metrica == "coste" then CosteRuta(p, nodos, j)
    else if metrica == "alfa" then nodos[j].alfa
    else nodos[j].beta
  }

  /** `a` beats `b` strictly under the criterion; an unknown criterion never prefers. */
  predicate Mejora(criterio: string, a: int, b: int)
  {
    (criterio == "menor" && a < b) || (criterio == "mayor" && a > b)
  }

  /** One candidate against the current best, goal after goal (the inner loop over the goals). */
  function Compara(p: Problema, nodos: seq<Nodo>, metricas: set<string>, metrica: string, criterio: string,
                   mejor: nat, x: nat, gs: seq<string>): (r: nat)
    requires Arena(nodos)
    ensures r == mejor || r == x
    decreases |gs|
  {
    if gs == [] then mejor
    else
      var m := Compara(p, nodos, metricas, metrica, criterio, mejor, x, gs[..|gs| - 1]);
      var g := gs[|gs| - 1];
      if metrica in metricas && Mejora(criterio, Medida(p, nodos, metrica, x, g), Medida(p, nodos, metrica, m, g)) then x
      else m
  }

  /** The best of `mejor` and the candidates `xs`, taken in order (the outer loop over the candidates). */
  function Escoge(p: Problema, nodos: seq<Nodo>, metricas: set<string>, metrica: string, criterio: string,
                  mejor: nat, xs: seq<nat>, gs: seq<string>): (r: nat)
    requires Arena(nodos)
    ensures r == mejor || r in xs
    decreases |xs|
  {
    if xs == [] then mejor
    else
      var m := Escoge(p, nodos, metricas, metrica, criterio, mejor, xs[..|xs| - 1], gs);
      Compara(p, nodos, metricas, metrica, criterio, m, xs[|xs| - 1], gs)
  }

  /** One more node in the list: the best so far is compared with it. */
  lemma EscogePaso(p: Problema, nodos: seq<Nodo>, metricas: set<string>, metrica: string, criterio: string,
                   mejor: nat, xs: seq<nat>, k: nat, gs: seq<string>)
    requires Arena(nodos) && k < |xs|
    ensures Escoge(p, nodos, metricas, metrica, criterio, mejor, xs[..k + 1], gs)
      == Compara(p, nodos, metricas, metrica, criterio, Escoge(p, nodos, metricas, metrica, criterio, mejor, xs[..k], gs), xs[k], gs)
  {
    assert xs[..k + 1][..k] == xs[..k];
  }

  /** No node of `ys` beats `r` on goal `g`. */
  ghost predicate Invicto(p: Problema, nodos: seq<Nodo>, metrica: string, criterio: string, ys: seq<nat>, r: nat, g: string)
    requires Arena(nodos)
  {
    forall j :: 0 <= j < |ys| ==> !Mejora(criterio, Medida(p, nodos, metrica, ys[j], g), Medida(p, nodos, metrica, r, g))
  }

  /** `r` strictly beats the first `i` nodes of `ys` on goal `g`. */
  ghost predicate Gana(p: Problema, nodos: seq<Nodo>, metrica: string, criterio: string, ys: seq<nat>, r: nat, g: string, i: nat)
    requires Arena(nodos) && i <= |ys|
  {
    forall j :: 0 <= j < i ==> Mejora(criterio, Medida(p, nodos, metrica, r, g), Medida(p, nodos, metrica, ys[j], g))
  }

  /** One goal: `Compara` takes the candidate exactly when it strictly beats the best so far. */
  lemma CompararUno(p: Problema, nodos: seq<Nodo>, metricas: set<string>, metrica: string, criterio: string,
                    m: nat, x: nat, g: string)
    requires Arena(nodos) && metrica in metricas
    ensures Compara(p, nodos, metricas, metrica, criterio, m, x, [g])
      == if Mejora(criterio, Medida(p, nodos, metrica, x, g), Medida(p, nodos, metrica, m, g)) then x else m
  {
    assert [g][..0] == [];
  }

  /** A node `r` unbeaten by `ys` and by `y` is unbeaten by `ys + [y]`, and keeps beating the same prefix. */
  lemma SigueInvicto(p: Problema, nodos: seq<Nodo>, metrica: string, criterio: string, ys: seq<nat>, y: nat, r: nat, g: string, i: nat)
    requires Arena(nodos) && i <= |ys| && Invicto(p, nodos, metrica, criterio, ys, r, g) && Gana(p, nodos, metrica, criterio, ys, r, g, i)
    requires !Mejora(criterio, Medida(p, nodos, metrica, y, g), Medida(p, nodos, metrica, r, g))
    ensures Invicto(p, nodos, metrica, criterio, ys + [y], r, g) && Gana(p, nodos, metrica, criterio, ys + [y], r, g, i)
  {
    forall j | 0 <= j < |ys| + 1
      ensures !Mejora(criterio, Medida(p, nodos, metrica, (ys + [y])[j], g), Medida(p, nodos, metrica, r, g))
    {
      if j < |ys| { assert (ys + [y])[j] == ys[j]; }
    }
    forall j | 0 <= j < i
      ensures Mejora(criterio, Medida(p, nodos, metrica, r, g), Medida(p, nodos, metrica, (ys + [y])[j], g))
    {
      assert (ys + [y])[j] == ys[j];
    }
  }

  /** A node `x` that strictly beats a node `m` unbeaten by `ys` beats all of `ys`, and nothing in `ys + [x]` beats it. */
  lemma NuevoInvicto(p: Problema, nodos: seq<Nodo>, metrica: string, criterio: string, ys: seq<nat>, m: nat, x: nat, g: string)
    requires Arena(nodos) && (criterio == "menor" || criterio == "mayor") && Invicto(p, nodos, metrica, criterio, ys, m, g)
    requires Mejora(criterio, Medida(p, nodos, metrica, x, g), Medida(p, nodos, metrica, m, g))
    ensures Invicto(p, nodos, metrica, criterio, ys + [x], x, g) && Gana(p, nodos, metrica, criterio, ys + [x], x, g, |ys|)
  {
    var vx := Medida(p, nodos, metrica, x, g);
    forall j | 0 <= j < |ys| + 1
      ensures !Mejora(criterio, Medida(p, nodos, metrica, (ys + [x])[j], g), vx)
    {
      if j < |ys| { assert (ys + [x])[j] == ys[j]; }
    }
    forall j | 0 <= j < |ys|
      ensures Mejora(criterio, vx, Medida(p, nodos, metrica, (ys + [x])[j], g))
    {
      assert (ys + [x])[j] == ys[j];
    }
  }

  /** Dropping the head of `[y] + hs` keeps `r` unbeaten and shifts the prefix it beats. */
  lemma InvictoCola(p: Problema, nodos: seq<Nodo>, metrica: string, criterio: string, y: nat, hs: seq<nat>, r: nat, g: string, i: nat)
    requires Arena(nodos) && i <= |hs| + 1
    requires Invicto(p, nodos, metrica, criterio, [y] + hs, r, g) && Gana(p, nodos, metrica, criterio, [y] + hs, r, g, i)
    ensures Invicto(p, nodos, metrica, criterio, hs, r, g)
    ensures Gana(p, nodos, metrica, criterio, hs, r, g, if i == 0 then 0 else i - 1)
  {
    forall j | 0 <= j < |hs|
      ensures !Mejora(criterio, Medida(p, nodos, metrica, hs[j], g), Medida(p, nodos, metrica, r, g))
    {
      assert hs[j] == ([y] + hs)[j + 1];
    }
    forall j | 0 <= j < (if i == 0 then 0 else i - 1)
      ensures Mejora(criterio, Medida(p, nodos, metrica, r, g), Medida(p, nodos, metrica, hs[j], g))
    {
      assert hs[j] == ([y] + hs)[j + 1];
    }
  }

  /**
   * With one goal and a known metric and criterion, the choice is the first
   * node of `[mejor] + xs` that no other node beats: every earlier node is
   * strictly beaten by it (comparisons are strict, so ties keep the first).
   */
  lemma {:induction false} EscogePrimero(p: Problema, nodos: seq<Nodo>, metricas: set<string>, metrica: string,
                                         criterio: string, mejor: nat, xs: seq<nat>, g: string)
    requires Arena(nodos) && metrica in metricas && (criterio == "menor" || criterio == "mayor")
    ensures var ys := [mejor] + xs;
      var r := Escoge(p, nodos, metricas, metrica, criterio, mejor, xs, [g]);
      exists i :: 0 <= i < |ys| && ys[i] == r
        && (forall j :: 0 <= j < |ys| ==> !Mejora(criterio, Medida(p, nodos, metrica, ys[j], g), Medida(p, nodos, metrica, r, g)))
        && (forall j :: 0 <= j < i ==> Mejora(criterio, Medida(p, nodos, metrica, r, g), Medida(p, nodos, metrica, ys[j], g)))
    decreases |xs|
  {
    var i := EscogeInvicto(p, nodos, metricas, metrica, criterio, mejor, xs, g);
    var ys := [mejor] + xs;
    var r := Escoge(p, nodos, metricas, metrica, criterio, mejor, xs, [g]);
    assert Invicto(p, nodos, metrica, criterio, ys, r, g) && Gana(p, nodos, metrica, criterio, ys, r, g, i);
  }

  /** `EscogePrimero` with the position of the choice returned and the two halves named. */
  lemma {:induction false} EscogeInvicto(p: Problema, nodos: seq<Nodo>, metricas: set<string>, metrica: string,
                                         criterio: string, mejor: nat, xs: seq<nat>, g: string) returns (i: nat)
    requires Arena(nodos) && metrica in metricas && (criterio == "menor" || criterio == "mayor")
    ensures var ys := [mejor] + xs;
      var r := Escoge(p, nodos, metricas, metrica, criterio, mejor, xs, [g]);
      i < |ys| && ys[i] == r && Invicto(p, nodos, metrica, criterio, ys, r, g) && Gana(p, nodos, metrica, criterio, ys, r, g, i)
    decreases |xs|
  {
    var ys := [mejor] + xs;
    if xs == [] {
      i := 0;
    } else {
      var xs' := xs[..|xs| - 1];
      var x := xs[|xs| - 1];
      var ys' := [mejor] + xs';
      assert ys == ys' + [x];
      var m := Escoge(p, nodos, metricas, metrica, criterio, mejor, xs', [g]);
      var i' := EscogeInvicto(p, nodos, metricas, metrica, criterio, mejor, xs', g);
      CompararUno(p, nodos, metricas, metrica, criterio, m, x, g);
      if Mejora(criterio, Medida(p, nodos, metrica, x, g), Medida(p, nodos, metrica, m, g)) {
        NuevoInvicto(p, nodos, metrica, criterio, ys', m, x, g);
        i := |ys'|;
      } else {
        SigueInvicto(p, nodos, metrica, criterio, ys', x, m, g, i');
        i := i';
      }
    }
  }

  /** An unknown metric or criterion never replaces the first node. */
  lemma {:induction false} EscogeDesconocido(p: Problema, nodos: seq<Nodo>, metricas: set<string>, metrica: string,
                                             criterio: string, mejor: nat, xs: seq<nat>, gs: seq<string>)
    requires Arena(nodos) && (metrica !in metricas || (criterio != "menor" && criterio != "mayor"))
    ensures Escoge(p, nodos, metricas, metrica, criterio, mejor, xs, gs) == mejor
    decreases |xs|
  {
    if xs != [] {
      EscogeDesconocido(p, nodos, metricas, metrica, criterio, mejor, xs[..|xs| - 1], gs);
      ComparaDesconocido(p, nodos, metricas, metrica, criterio, mejor, xs[|xs| - 1], gs);
    }
  }

  lemma {:induction false} ComparaDesconocido(p: Problema, nodos: seq<Nodo>, metricas: set<string>, metrica: string,
                                              criterio: string, mejor: nat, x: nat, gs: seq<string>)
    requires Arena(nodos) && (metrica !in metricas || (criterio != "menor" && criterio != "mayor"))
    ensures Compara(p, nodos, metricas, metrica, criterio, mejor, x, gs) == mejor
    decreases |gs|
  {
    if gs != [] {
      ComparaDesconocido(p, nodos, metricas, metrica, criterio, mejor, x, gs[..|gs| - 1]);
    }
  }

  /**
   * One comparison of `hijo_mejor`: whether `hijo` beats `mejor` for goal `g`
   * under the metric and the criterion (an unknown metric never does).
   */
  method SuperaEn(p: Problema, t: Arbol, metrica: string, criterio: string, hijo: nat, mejor: nat, g: string)
    returns (nuevo: bool)
    requires t.Valido() && hijo < |t.nodos| && mejor < |t.nodos|
    requires Medible(t.nodos, metrica, hijo, g) && Medible(t.nodos, metrica, mejor, g)
    ensures nuevo == (metrica in METRICAS_HIJO
                      && Mejora(criterio, Medida(p, t.nodos, metrica, hijo, g), Medida(p, t.nodos, metrica, mejor, g)))
  {
    nuevo := false;
    if metrica == "valor" {
      var valorHijo := t.nodos[hijo].valores[Nombre(g)];
      var valorMejor := t.nodos[mejor].valores[Nombre(g)];
      nuevo := Mejora(criterio, valorHijo, valorMejor);
    } else if metrica == "heuristica" {
      var heuristicaHijo := t.nodos[hijo].heuristicas[Nombre(g)];
      var heuristicaMejor := t.nodos[mejor].heuristicas[Nombre(g)];
      nuevo := Mejora(criterio, heuristicaHijo, heuristicaMejor);
    } else if metrica == "coste" {
      var costeHijo := t.CosteCamino(p, hijo);
      var costeMejor := t.CosteCamino(p, mejor);
      nuevo := Mejora(criterio, costeHijo, costeMejor);
    } else if metrica == "alfa" {
      nuevo := Mejora(criterio, t.nodos[hijo].alfa, t.nodos[mejor].alfa);
    } else if metrica == "beta" {
      nuevo := Mejora(criterio, t.nodos[hijo].beta, t.nodos[mejor].beta);
    }
  }

  /**
   * The loop of `hijo_mejor` over the goals for one child: `hijo` replaces
   * the current best whenever it is strictly better for the goal at hand.
   */
  method CompararHijo(p: Problema, t: Arbol, metrica: string, criterio: string, antes: nat, hijo: nat) returns (mejor: nat)
    requires t.Valido() && antes < |t.nodos| && hijo < |t.nodos|
    requires forall g :: g in p.objetivos ==> Medible(t.nodos, metrica, antes, g) && Medible(t.nodos, metrica, hijo, g)
    ensures mejor == Compara(p, t.nodos, METRICAS_HIJO, metrica, criterio, antes, hijo, p.objetivos)
  {
    mejor := antes;
    var n := 0;
    while n < |p.objetivos|
      invariant 0 <= n <= |p.objetivos| && (mejor == antes || mejor == hijo)
      invariant mejor == Compara(p, t.nodos, METRICAS_HIJO, metrica, criterio, antes, hijo, p.objetivos[..n])
    {
      var g := p.objetivos[n];
      assert p.objetivos[..n + 1][..n] == p.objetivos[..n];
      var nuevo := SuperaEn(p, t, metrica, criterio, hijo, mejor, g);
      if nuevo {
        mejor := hijo;
      }
      n := n + 1;
    }
    assert p.objetivos[..n] == p.objetivos;
  }

  /**
   * `Nodo.hijo_mejor`: starting from the first child, every child is compared
   * with the current best for every goal in turn and replaces it when it is
   * strictly better under the metric and criterion; None without children.
   * The `valor` and `heuristica` metrics look the goal's name up in every
   * child (a `KeyError` otherwise); `coste` is `coste_camino`.
   */
  method HijoMejor(p: Problema, t: Arbol, i: nat, metrica: string, criterio: string) returns (r: Option<nat>)
    requires t.Valido() && i < |t.nodos| && Medibles(t.nodos, metrica, t.nodos[i].hijos, p.objetivos)
    ensures r.None? <==> t.nodos[i].hijos == []
    ensures r.Some? ==> (r.value in t.nodos[i].hijos
      && r.value == Escoge(p, t.nodos, METRICAS_HIJO, metrica, criterio, t.nodos[i].hijos[0], t.nodos[i].hijos, p.objetivos))
  {
    var hs := t.nodos[i].hijos;
    if hs == [] {
      return None;
    }
    assert Enlazado(t.nodos, i);
    var mejor := hs[0];
    ghost var q := 0;
    var k := 0;
    while k < |hs|
      invariant 0 <= k <= |hs| && q < |hs| && hs[q] == mejor
      invariant mejor == Escoge(p, t.nodos, METRICAS_HIJO, metrica, criterio, hs[0], hs[..k], p.objetivos)
    {
      var hijo := hs[k];
      EscogePaso(p, t.nodos, METRICAS_HIJO, metrica, criterio, hs[0], hs, k, p.objetivos);
      MedibleEn(t.nodos, metrica, hs, p.objetivos, q);
      MedibleEn(t.nodos, metrica, hs, p.objetivos, k);
      mejor := CompararHijo(p, t, metrica, criterio, mejor, hijo);
      q := if mejor == hijo then k else q;
      k := k + 1;
    }
    assert hs[..k] == hs;
    r := Some(mejor);
  }

  /**
   * `hijo_mejor` with one goal and criterion `menor` or `mayor`: the first
   * child in order whose metric no child beats.
   */
  lemma HijoMejorPrimero(p: Problema, nodos: seq<Nodo>, metrica: string, criterio: string, hs: seq<nat>, g: string)
    requires Arena(nodos) && hs != []
    requires metrica in METRICAS_HIJO && (criterio == "menor" || criterio == "mayor")
    ensures var r := Escoge(p, nodos, METRICAS_HIJO, metrica, criterio, hs[0], hs, [g]);
      exists i :: 0 <= i < |hs| && hs[i] == r
        && (forall j :: 0 <= j < |hs| ==> !Mejora(criterio, Medida(p, nodos, metrica, hs[j], g), Medida(p, nodos, metrica, r, g)))
        && (forall j :: 0 <= j < i ==> Mejora(criterio, Medida(p, nodos, metrica, r, g), Medida(p, nodos, metrica, hs[j], g)))
  {
    var i := EscogeInvicto(p, nodos, METRICAS_HIJO, metrica, criterio, hs[0], hs, g);
    var r := Escoge(p, nodos, METRICAS_HIJO, metrica, criterio, hs[0], hs, [g]);
    // The first child is compared with itself first and never beats itself.
    InvictoCola(p, nodos, metrica, criterio, hs[0], hs, r, g, i);
    var i' := if i == 0 then 0 else i - 1;
    assert hs[i'] == ([hs[0]] + hs)[i];
    assert Invicto(p, nodos, metrica, criterio, hs, r, g) && Gana(p, nodos, metrica, criterio, hs, r, g, i');
  }
}
