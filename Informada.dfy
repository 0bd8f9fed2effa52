/**
 * The informed searches of `busqueda/informada.py`. They build the nodes of
 * `busqueda/grafos_simple.py` (with `heuristicas`, `valores` and `alfa`) in
 * the arena of `Grafos.Arbol`; a frontier is a list of arena indices and the
 * explored set a set of state names, as in `NoInformada`.
 */
module Informada {
  import opened Tipos
  import opened Grafos
  import opened Espacio
  import opened Frontera
  import opened GrafosSimple

  // ---------------------------------------------------------------------------
  // crea_nodo_raiz / crea_nodo_hijo
  // ---------------------------------------------------------------------------

  /**
   * Every state of the problem has a row of heuristics holding the name of
   * every goal: the lookups `problema.heuristicas[estado.nombre]` and
   * `valores[objetivo.nombre]` of the searches succeed.
   */
  predicate Tasado(p: Problema)
  {
    forall s :: s in Estados(p) ==> s in p.heuristicas && forall g :: g in p.objetivos ==> Nombre(g) in p.heuristicas[s]
  }

  /** The node `crea_nodo_raiz` builds: the initial state with its row, cost 0, and its heuristics as `valores`. */
  function RaizInformada(p: Problema): (n: Nodo)
    requires p.estadoInicial in p.heuristicas
    ensures n.estado == p.estadoInicial && n.padre.None? && n.hijos == [] && n.coste == 0
    ensures n.heuristicas == p.heuristicas[p.estadoInicial] && n.valores == n.heuristicas
  {
    NodoNuevo(p.estadoInicial, None, FilaDe(p, p.estadoInicial), None).(
      heuristicas := p.heuristicas[p.estadoInicial], valores := p.heuristicas[p.estadoInicial])
  }

  /**
   * `crea_nodo_raiz`: a parentless node for the initial state, with the
   * state's row of actions (`{}` when the table has none), cost 0, its
   * state's heuristics and, since the cost is 0, `valores` equal to them.
   */
  method CreaNodoRaiz(p: Problema, t: Arbol) returns (raiz: nat)
    requires Buenos(p, t.nodos) && Tasado(p)
    modifies t
    ensures raiz == |old(t.nodos)| && t.nodos == old(t.nodos) + [RaizInformada(p)]
    ensures Buenos(p, t.nodos) && Crece(old(t.nodos), t.nodos) && Raiz(t.nodos, raiz) == raiz
  {
    var e := p.estadoInicial;
    var acciones: Tabla := [];
    if e in p.acciones {
      acciones := p.acciones[e];
    }
    var nodo := NodoNuevo(e, None, acciones, None).(coste := 0);
    nodo := nodo.(heuristicas := p.heuristicas[e]);
    nodo := nodo.(valores := nodo.heuristicas);
    AgregaRaiz(p, t.nodos, nodo);
    raiz := t.Nuevo(nodo);
  }

  /** An action's target is a state of the problem. */
  lemma DestinoEsEstado(p: Problema, s: string, a: string)
    requires Resultado(p, s, a).Some?
    ensures Resultado(p, s, a).value in Estados(p)
  {
    var k :| 0 <= k < |p.acciones[s]| && p.acciones[s][k] == (a, Resultado(p, s, a).value);
  }

  /**
   * `crea_nodo_hijo`: the child reached from `padre` by `accion`, with its
   * state's row, cost `padre.coste` plus the cost of the action, its
   * state's heuristics and, per goal, heuristic plus cost as `valores`. With
   * `agregar` it is linked to `padre` and appended to its children;
   * without, it is left parentless.
   */
  method CreaNodoHijo(p: Problema, t: Arbol, padre: nat, accion: string, agregar: bool) returns (hijo: nat)
    requires Buenos(p, t.nodos) && Tasado(p) && padre < |t.nodos| && Resultado(p, t.nodos[padre].estado, accion).Some?
    modifies t
    ensures hijo == |old(t.nodos)|
    ensures var s := old(t.nodos)[padre].estado;
      var n := HijoSimple(p, padre, s, old(t.nodos)[padre].coste, (accion, Resultado(p, s, accion).value));
      t.nodos == if agregar then Colgado(old(t.nodos), padre, n) else old(t.nodos) + [n.(padre := None)]
    ensures Buenos(p, t.nodos) && Crece(old(t.nodos), t.nodos)
    ensures Raiz(t.nodos, hijo) == if agregar then Raiz(old(t.nodos), padre) else hijo
    ensures var n := t.nodos[hijo];
      n.coste == old(t.nodos)[padre].coste + CosteAccion(p, old(t.nodos)[padre].estado, accion)
      && n.heuristicas == p.heuristicas[n.estado] && n.valores.Keys == n.heuristicas.Keys
      && (forall g :: g in n.valores ==> n.valores[g] == n.heuristicas[g] + n.coste)
      && forall g :: g in p.objetivos ==> Nombre(g) in n.valores && Nombre(g) in n.heuristicas
  {
    var s := t.nodos[padre].estado;
    var e := Resultado(p, s, accion).value;
    DestinoEsEstado(p, s, accion);
    ghost var n := HijoSimple(p, padre, s, t.nodos[padre].coste, (accion, e));
    HijoTasado(p, padre, s, t.nodos[padre].coste, (accion, e));
    var acciones: Tabla := [];
    if e in p.acciones {
      acciones := p.acciones[e];
    }
    assert acciones == FilaDe(p, e);
    var coste := t.nodos[padre].coste + CosteAccion(p, s, accion);
    var heuristicas := p.heuristicas[e];
    var nodo := NodoNuevo(e, Some(accion), acciones, None).(coste := coste, heuristicas := heuristicas,
                                                            valores := Suma(heuristicas, coste));
    assert nodo.coste == n.coste && nodo.heuristicas == n.heuristicas && nodo.valores == n.valores;
    assert nodo == n.(padre := None);
    if agregar {
      nodo := nodo.(padre := Some(padre));
      AgregaHijo(p, t.nodos, padre, nodo);
      hijo := t.Colgar(padre, nodo);
      assert t.nodos[hijo] == n;
    } else {
      AgregaRaiz(p, t.nodos, nodo);
      hijo := t.Nuevo(nodo);
      assert t.nodos[hijo] == n.(padre := None);
    }
  }

  /** The child `crea_nodo_hijo` builds for a state of the problem carries a heuristic and a value for every goal. */
  lemma HijoTasado(p: Problema, i: nat, s: string, base: int, a: (string, string))
    requires Tasado(p) && a.1 in Estados(p)
    ensures a.1 in p.heuristicas
    ensures var n := HijoSimple(p, i, s, base, a);
      n.estado == a.1 && n.coste == base + CosteAccion(p, s, a.0)
      && n.heuristicas == p.heuristicas[n.estado] && n.valores.Keys == n.heuristicas.Keys
      && (forall g :: g in n.valores ==> n.valores[g] == n.heuristicas[g] + n.coste)
      && forall g :: g in p.objetivos ==> Nombre(g) in n.valores && Nombre(g) in n.heuristicas
  {
  }

  /**
   * `crea_nodo_hijo` for the `k`-th action of `nodo`, as the searches see
   * it: the child is a new node for the action's target in `nodo`'s tree
   * (with `agregar`) or a parentless one (without), carrying its tables;
   * the rest of the tree only grows.
   */
  method NuevoHijo(p: Problema, t: Arbol, nodo: nat, k: nat, agregar: bool) returns (hijo: nat)
    requires Buenos(p, t.nodos) && Tasado(p) && nodo < |t.nodos| && k < |t.nodos[nodo].acciones|
    modifies t
    ensures Buenos(p, t.nodos) && Crece(old(t.nodos), t.nodos) && nodo < hijo == |old(t.nodos)| < |t.nodos|
    ensures Raiz(t.nodos, nodo) == Raiz(old(t.nodos), nodo) && t.nodos[nodo].estado == old(t.nodos)[nodo].estado
    ensures t.nodos[hijo].estado == old(t.nodos)[nodo].acciones[k].1 && t.nodos[hijo].estado in Estados(p)
    ensures Raiz(t.nodos, hijo) == if agregar then Raiz(old(t.nodos), nodo) else hijo
    ensures t.nodos[hijo].padre == if agregar then Some(nodo) else None
    ensures Valorados(p, t.nodos, [hijo])
  {
    var accion := t.nodos[nodo].acciones[k];
    AccionDeNodo(p, t.nodos, nodo, k);
    hijo := CreaNodoHijo(p, t, nodo, accion.0, agregar);
    CreceEstable(p, old(t.nodos), t.nodos, nodo);
    assert NodoBueno(p, t.nodos, hijo);
  }

  // ---------------------------------------------------------------------------
  // sacar_siguiente
  // ---------------------------------------------------------------------------

  /** `xs.index(x)`: the first position of `x`. */
  function Posicion(xs: seq<nat>, x: nat): (k: nat)
    requires x in xs
    ensures k < |xs| && xs[k] == x && forall j :: 0 <= j < k ==> xs[j] != x
  {
    if xs[0] == x then 0 else 1 + Posicion(xs[1..], x)
  }

  /** `xs.remove(x)`: the list without the first occurrence of `x`. */
  function Quita(xs: seq<nat>, x: nat): (r: seq<nat>)
    requires x in xs
    ensures |r| == |xs| - 1 && multiset(r) == multiset(xs) - multiset{x}
  {
    var k := Posicion(xs, x);
    assert xs == xs[..k] + [x] + xs[k + 1..];
    xs[..k] + xs[k + 1..]
  }

  /**
   * The metrics `sacar_siguiente` compares. Its `coste` branch reads an
   * attribute nodes do not have, so it is not part of the model.
   */
  const METRICAS_SACAR: set<string> := {"valor", "heuristica"}

  /**
   * The loop of `sacar_siguiente` over the goals for one frontier node:
   * `nodo` replaces the current best whenever it is strictly better for the
   * goal at hand.
   */
  method CompararNodo(p: Problema, t: Arbol, metrica: string, criterio: string, antes: nat, nodo: nat, objetivos: seq<string>)
    returns (mejor: nat)
    requires t.Valido()
    requires forall g :: g in objetivos ==> antes < |t.nodos| && Medible(t.nodos, metrica, antes, g)
    requires forall g :: g in objetivos ==> nodo < |t.nodos| && Medible(t.nodos, metrica, nodo, g)
    ensures mejor == Compara(p, t.nodos, METRICAS_SACAR, metrica, criterio, antes, nodo, objetivos)
  {
    mejor := antes;
    var n := 0;
    while n < |objetivos|
      invariant 0 <= n <= |objetivos| && (mejor == antes || mejor == nodo)
      invariant mejor == Compara(p, t.nodos, METRICAS_SACAR, metrica, criterio, antes, nodo, objetivos[..n])
    {
      var g := objetivos[n];
      assert objetivos[..n + 1][..n] == objetivos[..n];
      assert g in objetivos;
      if metrica == "valor" {
        var valorNodo := t.nodos[nodo].valores[Nombre(g)];
        var valorMejor := t.nodos[mejor].valores[Nombre(g)];
        if Mejora(criterio, valorNodo, valorMejor) {
          mejor := nodo;
        }
      } else if metrica == "heuristica" {
        var heuristicaNodo := t.nodos[nodo].heuristicas[Nombre(g)];
        var heuristicaMejor := t.nodos[mejor].heuristicas[Nombre(g)];
        if Mejora(criterio, heuristicaNodo, heuristicaMejor) {
          mejor := nodo;
        }
      }
      n := n + 1;
    }
    assert objetivos[..n] == objetivos;
  }

  /**
   * `sacar_siguiente`: None on an empty frontier; otherwise, starting from
   * the first node, every later node is compared with the current best for
   * every goal in turn and replaces it when strictly better under the metric
   * and criterion; the best is removed from the frontier and returned.
   */
  method SacarSiguiente(p: Problema, t: Arbol, frontera: seq<nat>, metrica: string, criterio: string, objetivos: seq<string>)
    returns (r: Option<nat>, resto: seq<nat>)
    requires t.Valido() && Medibles(t.nodos, metrica, frontera, objetivos) && metrica != "coste"
    ensures r.None? <==> frontera == []
    ensures r.None? ==> resto == frontera
    ensures r.Some? ==> (r.value in frontera && resto == Quita(frontera, r.value)
      && r.value == Escoge(p, t.nodos, METRICAS_SACAR, metrica, criterio, frontera[0], frontera[1..], objetivos))
  {
    if frontera == [] {
      return None, frontera;
    }
    var mejor := frontera[0];
    ghost var q := 0;
    var siguientes := frontera[1..];
    var k := 0;
    while k < |siguientes|
      invariant 0 <= k <= |siguientes| && q < |frontera| && frontera[q] == mejor
      invariant mejor == Escoge(p, t.nodos, METRICAS_SACAR, metrica, criterio, frontera[0], siguientes[..k], objetivos)
    {
      var nodo := siguientes[k];
      EscogePaso(p, t.nodos, METRICAS_SACAR, metrica, criterio, frontera[0], siguientes, k, objetivos);
      assert nodo == frontera[k + 1];
      MedibleEn(t.nodos, metrica, frontera, objetivos, q);
      MedibleEn(t.nodos, metrica, frontera, objetivos, k + 1);
      mejor := CompararNodo(p, t, metrica, criterio, mejor, nodo, objetivos);
      q := if mejor == nodo then k + 1 else q;
      k := k + 1;
    }
    assert siguientes[..k] == siguientes;
    assert mejor in frontera;
    r := Some(mejor);
    resto := Quita(frontera, mejor);
  }

  /**
   * With one goal and criterion `menor` or `mayor`, `sacar_siguiente` takes
   * out the first frontier node whose metric no frontier node beats.
   */
  lemma SacarPrimero(p: Problema, nodos: seq<Nodo>, metrica: string, criterio: string, fr: seq<nat>, g: string)
    requires Arena(nodos) && fr != [] && metrica in METRICAS_SACAR && (criterio == "menor" || criterio == "mayor")
    ensures var r := Escoge(p, nodos, METRICAS_SACAR, metrica, criterio, fr[0], fr[1..], [g]);
      exists i :: 0 <= i < |fr| && fr[i] == r
        && (forall j :: 0 <= j < |fr| ==> !Mejora(criterio, Medida(p, nodos, metrica, fr[j], g), Medida(p, nodos, metrica, r, g)))
        && (forall j :: 0 <= j < i ==> Mejora(criterio, Medida(p, nodos, metrica, r, g), Medida(p, nodos, metrica, fr[j], g)))
  {
    assert [fr[0]] + fr[1..] == fr;
    EscogePrimero(p, nodos, METRICAS_SACAR, metrica, criterio, fr[0], fr[1..], g);
  }

  // ---------------------------------------------------------------------------
  // The capped frontier of sma_estrella
  // ---------------------------------------------------------------------------

  /**
   * The append of `sma_estrella`: when the frontier holds more than
   * `maximo` nodes it is sorted by the list of `valores` per goal and its
   * last node dropped, whatever the new node is worth; then `h` is appended.
   */
  function Acota(nodos: seq<Nodo>, gs: seq<string>, fr: seq<nat>, maximo: nat, h: nat): (r: seq<nat>)
    requires EnRango(nodos, fr) && h < |nodos|
    ensures EnRango(nodos, r) && r != [] && r[|r| - 1] == h
    ensures |r| == if |fr| > maximo then |fr| else |fr| + 1
  {
    if |fr| > maximo then
      var s := Ordena(nodos, PorValores(gs), fr);
      assert |s| == |multiset(s)| == |fr|;
      s[..|s| - 1] + [h]
    else fr + [h]
  }

  /** The last node of a sorted frontier has the largest key. */
  lemma UltimoMayor(nodos: seq<Nodo>, o: Orden, s: seq<nat>, x: nat)
    requires EnRango(nodos, s) && Ordenada(nodos, o, s) && s != [] && x in s
    ensures LexMenorIgual(ClaveDe(nodos, o, x), ClaveDe(nodos, o, s[|s| - 1]))
  {
    var i :| 0 <= i < |s| && s[i] == x;
    if i == |s| - 1 {
      LexTotal(ClaveDe(nodos, o, x), ClaveDe(nodos, o, x));
    }
  }

  /** Sorting a frontier puts a node with the largest key last. */
  lemma OrdenaUltimoMayor(nodos: seq<Nodo>, o: Orden, fr: seq<nat>)
    requires EnRango(nodos, fr) && fr != []
    ensures var s := Ordena(nodos, o, fr);
      |s| == |fr| && forall k :: 0 <= k < |fr| ==> LexMenorIgual(ClaveDe(nodos, o, fr[k]), ClaveDe(nodos, o, s[|s| - 1]))
  {
    var s := Ordena(nodos, o, fr);
    assert |s| == |multiset(s)| == |fr|;
    OrdenaOrdenada(nodos, o, fr);
    forall k | 0 <= k < |fr| ensures LexMenorIgual(ClaveDe(nodos, o, fr[k]), ClaveDe(nodos, o, s[|s| - 1])) {
      assert fr[k] in multiset(s);
      UltimoMayor(nodos, o, s, fr[k]);
    }
  }

  /** The node `Acota` drops from a full frontier: the last one once sorted. */
  function Descartado(nodos: seq<Nodo>, gs: seq<string>, fr: seq<nat>): (d: nat)
    requires EnRango(nodos, fr) && fr != []
    ensures d in fr
  {
    var s := Ordena(nodos, PorValores(gs), fr);
    assert |s| == |multiset(s)| == |fr|;
    assert s[|s| - 1] in multiset(fr);
    s[|s| - 1]
  }

  /**
   * What `Acota` drops, when it drops anything, is one node of the frontier
   * whose key is at least every frontier node's key; the rest stays.
   */
  lemma AcotaDescarta(nodos: seq<Nodo>, gs: seq<string>, fr: seq<nat>, maximo: nat, h: nat)
    requires EnRango(nodos, fr) && h < |nodos|
    ensures |fr| <= maximo ==> Acota(nodos, gs, fr, maximo, h) == fr + [h]
    ensures |fr| > maximo ==>
      multiset(Acota(nodos, gs, fr, maximo, h)) == multiset(fr) - multiset{Descartado(nodos, gs, fr)} + multiset{h}
    ensures |fr| > maximo ==> forall k :: 0 <= k < |fr| ==>
      LexMenorIgual(ClaveDe(nodos, PorValores(gs), fr[k]), ClaveDe(nodos, PorValores(gs), Descartado(nodos, gs, fr)))
  {
    if |fr| > maximo {
      OrdenaUltimoMayor(nodos, PorValores(gs), fr);
      AcotaQuitaUno(nodos, gs, fr, maximo, h);
    }
  }

  lemma AcotaQuitaUno(nodos: seq<Nodo>, gs: seq<string>, fr: seq<nat>, maximo: nat, h: nat)
    requires EnRango(nodos, fr) && h < |nodos| && |fr| > maximo
    ensures multiset(Acota(nodos, gs, fr, maximo, h)) == multiset(fr) - multiset{Descartado(nodos, gs, fr)} + multiset{h}
  {
    var s := Ordena(nodos, PorValores(gs), fr);
    assert |s| == |multiset(s)| == |fr|;
    QuitaUltimo(s, fr, h);
  }

  /** Replacing the last element of a permutation of `fr` by `h`. */
  lemma QuitaUltimo(s: seq<nat>, fr: seq<nat>, h: nat)
    requires s != [] && multiset(s) == multiset(fr)
    ensures multiset(s[..|s| - 1] + [h]) == multiset(fr) - multiset{s[|s| - 1]} + multiset{h}
  {
    assert s == s[..|s| - 1] + [s[|s| - 1]];
  }

  // ---------------------------------------------------------------------------
  // voraz / a_estrella / sma_estrella: best-first search over a frontier
  // ---------------------------------------------------------------------------

  /** Every frontier node holds an entry for every goal in `valores` and in `heuristicas`. */
  ghost predicate Valorados(p: Problema, nodos: seq<Nodo>, fr: seq<nat>)
  {
    forall x :: x in fr ==> x < |nodos| && forall g :: g in p.objetivos ==> Nombre(g) in nodos[x].valores && Nombre(g) in nodos[x].heuristicas
  }

  /** The lookups of `sacar_siguiente` succeed on a frontier of such nodes. */
  lemma ValoradosMedibles(p: Problema, nodos: seq<Nodo>, fr: seq<nat>, metrica: string)
    requires Valorados(p, nodos, fr)
    ensures Medibles(nodos, metrica, fr, p.objetivos)
  {
    forall k, g | 0 <= k < |fr| && g in p.objetivos ensures fr[k] < |nodos| && Medible(nodos, metrica, fr[k], g) {
      assert fr[k] in fr;
    }
  }

  /** Growing the tree keeps the tables of the frontier nodes. */
  lemma ValoradosCrece(p: Problema, viejos: seq<Nodo>, nuevos: seq<Nodo>, fr: seq<nat>)
    requires Crece(viejos, nuevos) && Valorados(p, viejos, fr)
    ensures Valorados(p, nuevos, fr)
  {
    forall x | x in fr ensures nuevos[x].valores == viejos[x].valores && nuevos[x].heuristicas == viejos[x].heuristicas {
      assert nuevos[x] == viejos[x].(hijos := nuevos[x].hijos);
    }
  }

  /** A frontier made of nodes of another one, and of `h`, holds such nodes when both do. */
  lemma ValoradosDe(p: Problema, nodos: seq<Nodo>, fr: seq<nat>, nueva: seq<nat>, h: nat)
    requires Valorados(p, nodos, fr) && Valorados(p, nodos, [h]) && forall x :: x in nueva ==> x in fr || x == h
    ensures Valorados(p, nodos, nueva)
  {
    forall x | x in nueva ensures x < |nodos| && forall g :: g in p.objetivos ==> Nombre(g) in nodos[x].valores && Nombre(g) in nodos[x].heuristicas {
      if x == h {
        assert h in [h];
      }
    }
  }

  /** Dropping the last node of the frontier keeps the bookkeeping. */
  lemma RegistroSinUltimo(p: Problema, nodos: seq<Nodo>, raiz: nat, fr: seq<nat>, e: set<string>)
    requires Registro(p, nodos, raiz, fr, e) && fr != []
    ensures Registro(p, nodos, raiz, fr[..|fr| - 1], e)
    ensures forall y :: y in EstadosDe(nodos, fr[..|fr| - 1]) ==> y in EstadosDe(nodos, fr)
  {
    var k := |fr| - 1;
    RegistroSaca(p, nodos, raiz, fr, e, k);
    assert fr[..k] + fr[k + 1..] == fr[..k];
    var fe := EstadosDe(nodos, fr);
    assert EstadosDe(nodos, fr[..k]) == fe[..k];
  }

  /**
   * The invariant of the loop of `voraz`, `a_estrella` and `sma_estrella`:
   * the bookkeeping holds, the frontier nodes carry their tables and no
   * explored state is a goal. Without a cap (`tope`), every action of an
   * explored state leads to an explored or a frontier state and the initial
   * state is explored unless the frontier still holds just the root; with a
   * cap, the frontier never holds more than the cap plus one node.
   */
  ghost predicate EnCursoMejor(p: Problema, nodos: seq<Nodo>, raiz: nat, fr: seq<nat>, e: set<string>, tope: Option<nat>)
  {
    Registro(p, nodos, raiz, fr, e) && SinObjetivo(p, e) && Valorados(p, nodos, fr)
    && (tope.None? ==> Cubre(p, e, EstadosDe(nodos, fr)) && (p.estadoInicial in e || fr == [raiz]))
    && (tope.Some? ==> |fr| <= tope.value + 1)
  }

  /**
   * The append branch for a child `h` of a new state, reached by the `k`-th
   * action of `s`: `frontera.append(hijo)`, after, in `sma_estrella` (a cap
   * `tope`), sorting the frontier by `valores` and dropping its last node
   * when it holds more than the cap.
   */
  method Anade(p: Problema, t: Arbol, raiz: nat, frontera: seq<nat>, explorados: set<string>, s: string, k: nat, hijo: nat, tope: Option<nat>)
    returns (nueva: seq<nat>)
    requires Registro(p, t.nodos, raiz, frontera, explorados) && Valorados(p, t.nodos, frontera)
    requires hijo < |t.nodos| && Raiz(t.nodos, hijo) == raiz && Valorados(p, t.nodos, [hijo])
    requires k < |FilaDe(p, s)| && FilaDe(p, s)[k].1 == t.nodos[hijo].estado
    requires t.nodos[hijo].estado !in explorados && t.nodos[hijo].estado !in EstadosDe(t.nodos, frontera)
    requires tope.None? ==> CubreSalvo(p, explorados, EstadosDe(t.nodos, frontera), s, k)
    requires tope.Some? ==> |frontera| <= tope.value + 1
    ensures tope.None? ==> nueva == frontera + [hijo]
    ensures tope.Some? ==> nueva == Acota(t.nodos, p.objetivos, frontera, tope.value, hijo)
    ensures Registro(p, t.nodos, raiz, nueva, explorados) && Valorados(p, t.nodos, nueva)
    ensures tope.None? ==> CubreSalvo(p, explorados, EstadosDe(t.nodos, nueva), s, k + 1)
    ensures tope.Some? ==> |nueva| <= tope.value + 1
  {
    if tope.None? {
      AnadeSigue(p, t.nodos, raiz, frontera, explorados, s, k, hijo);
      nueva := frontera + [hijo];
      ValoradosDe(p, t.nodos, frontera, nueva, hijo);
      return;
    }
    var fr := frontera;
    if |fr| > tope.value {
      fr := Ordena(t.nodos, PorValores(p.objetivos), fr);
      RegistroPermuta(p, t.nodos, raiz, frontera, fr, explorados);
      assert |fr| == |multiset(fr)| == |frontera|;
      ghost var ordenada := fr;
      fr := fr[..|fr| - 1];
      RegistroSinUltimo(p, t.nodos, raiz, ordenada, explorados);
      forall x | x in fr ensures x in frontera {
        assert x in multiset(ordenada);
      }
    }
    RegistroAmplia(p, t.nodos, raiz, fr, explorados, hijo);
    nueva := fr + [hijo];
    ValoradosDe(p, t.nodos, frontera, nueva, hijo);
  }

  /**
   * The replacement branch, for a child `h` reached by the `k`-th action of
   * `s` whose state is explored or on the frontier, keeps the invariant of
   * the loop over the actions.
   */
  lemma ReemplazaSigue(p: Problema, nodos: seq<Nodo>, raiz: nat, fr: seq<nat>, e: set<string>, c: Criterio, h: nat,
                       s: string, k: nat, tope: Option<nat>)
    requires Registro(p, nodos, raiz, fr, e) && Valorados(p, nodos, fr)
    requires h < |nodos| && Raiz(nodos, h) == raiz && Valorados(p, nodos, [h])
    requires k < |FilaDe(p, s)| && FilaDe(p, s)[k].1 == nodos[h].estado
    requires nodos[h].estado in e || nodos[h].estado in EstadosDe(nodos, fr)
    requires tope.None? ==> CubreSalvo(p, e, EstadosDe(nodos, fr), s, k)
    requires tope.Some? ==> |fr| <= tope.value + 1
    ensures var nueva := Reemplaza(nodos, c, fr, h);
      Registro(p, nodos, raiz, nueva, e) && Valorados(p, nodos, nueva)
      && (tope.None? ==> CubreSalvo(p, e, EstadosDe(nodos, nueva), s, k + 1))
      && (tope.Some? ==> |nueva| <= tope.value + 1)
  {
    var nueva := Reemplaza(nodos, c, fr, h);
    RegistroReemplaza(p, nodos, raiz, fr, e, c, h);
    ReemplazaMejora(nodos, c, fr, h);
    if tope.None? {
      CubreSigue(p, e, EstadosDe(nodos, fr), s, k);
    }
    forall x | x in nueva ensures x in fr || x == h {
      var i :| 0 <= i < |nueva| && nueva[i] == x;
    }
    ValoradosDe(p, nodos, fr, nueva, h);
  }

  /**
   * `crea_nodo_hijo(problema, nodo, accion)` for the `k`-th action of `nodo`
   * during a best-first search: the child, linked to `nodo`, is in the tree
   * of `raiz`, carries its tables, and leaves the frontier's bookkeeping as
   * it was.
   */
  method HijoEnFrontera(p: Problema, t: Arbol, raiz: nat, nodo: nat, k: nat, frontera: seq<nat>, explorados: set<string>)
    returns (hijo: nat)
    requires Tasado(p) && Registro(p, t.nodos, raiz, frontera, explorados) && Valorados(p, t.nodos, frontera)
    requires nodo < |t.nodos| && Raiz(t.nodos, nodo) == raiz && k < |t.nodos[nodo].acciones|
    modifies t
    ensures Buenos(p, t.nodos) && Crece(old(t.nodos), t.nodos) && nodo < |t.nodos| && Raiz(t.nodos, nodo) == raiz
    ensures Registro(p, t.nodos, raiz, frontera, explorados) && Valorados(p, t.nodos, frontera)
    ensures EstadosDe(t.nodos, frontera) == EstadosDe(old(t.nodos), frontera)
    ensures hijo < |t.nodos| && Raiz(t.nodos, hijo) == raiz && Valorados(p, t.nodos, [hijo])
    ensures k < |FilaDe(p, t.nodos[nodo].estado)| && FilaDe(p, t.nodos[nodo].estado)[k].1 == t.nodos[hijo].estado
  {
    ghost var antes := t.nodos;
    AccionDeNodo(p, t.nodos, nodo, k);
    hijo := NuevoHijo(p, t, nodo, k, true);
    RegistroCrece(p, antes, t.nodos, raiz, frontera, explorados);
    ValoradosCrece(p, antes, t.nodos, frontera);
    CreceEstable(p, antes, t.nodos, nodo);
  }

  /**
   * One turn of the loop over the actions of `nodo`: the child for its
   * `k`-th action is built and linked to `nodo`; one for a new state is
   * appended (`Anade`), otherwise it replaces the frontier node for its
   * state when strictly better under the criterion `c`.
   */
  method AmpliaAccion(p: Problema, t: Arbol, raiz: nat, nodo: nat, k: nat, frontera: seq<nat>, explorados: set<string>,
                      c: Criterio, tope: Option<nat>)
    returns (nueva: seq<nat>)
    requires Tasado(p) && Registro(p, t.nodos, raiz, frontera, explorados) && Valorados(p, t.nodos, frontera)
    requires nodo < |t.nodos| && Raiz(t.nodos, nodo) == raiz && k < |t.nodos[nodo].acciones|
    requires tope.None? ==> CubreSalvo(p, explorados, EstadosDe(t.nodos, frontera), t.nodos[nodo].estado, k)
    requires tope.Some? ==> |frontera| <= tope.value + 1
    modifies t
    ensures Buenos(p, t.nodos) && Crece(old(t.nodos), t.nodos) && nodo < |t.nodos| && Raiz(t.nodos, nodo) == raiz
    ensures Registro(p, t.nodos, raiz, nueva, explorados) && Valorados(p, t.nodos, nueva)
    ensures tope.None? ==> CubreSalvo(p, explorados, EstadosDe(t.nodos, nueva), t.nodos[nodo].estado, k + 1)
    ensures tope.Some? ==> |nueva| <= tope.value + 1
  {
    var s := t.nodos[nodo].estado;
    var hijo := HijoEnFrontera(p, t, raiz, nodo, k, frontera, explorados);
    var estadosFrontera := EstadosDe(t.nodos, frontera);
    if t.nodos[hijo].estado in explorados || t.nodos[hijo].estado in estadosFrontera {
      ReemplazaSigue(p, t.nodos, raiz, frontera, explorados, c, hijo, s, k, tope);
      nueva := Reemplaza(t.nodos, c, frontera, hijo);
    } else {
      nueva := Anade(p, t, raiz, frontera, explorados, s, k, hijo, tope);
    }
  }

  /**
   * The loop over the actions of `nodo` in `voraz`, `a_estrella` and
   * `sma_estrella`, one `AmpliaAccion` per action.
   */
  method AmpliaMejor(p: Problema, t: Arbol, raiz: nat, nodo: nat, frontera: seq<nat>, explorados: set<string>, c: Criterio, tope: Option<nat>)
    returns (nueva: seq<nat>)
    requires Tasado(p) && Registro(p, t.nodos, raiz, frontera, explorados) && Valorados(p, t.nodos, frontera)
    requires nodo < |t.nodos| && Raiz(t.nodos, nodo) == raiz
    requires tope.None? ==> CubreSalvo(p, explorados, EstadosDe(t.nodos, frontera), t.nodos[nodo].estado, 0)
    requires tope.Some? ==> |frontera| <= tope.value + 1
    modifies t
    ensures Buenos(p, t.nodos) && Crece(old(t.nodos), t.nodos)
    ensures Registro(p, t.nodos, raiz, nueva, explorados) && Valorados(p, t.nodos, nueva)
    ensures tope.None? ==> Cubre(p, explorados, EstadosDe(t.nodos, nueva))
    ensures tope.Some? ==> |nueva| <= tope.value + 1
  {
    ghost var s := t.nodos[nodo].estado;
    var n := |t.nodos[nodo].acciones|;
    assert NodoBueno(p, t.nodos, nodo);
    nueva := frontera;
    var k := 0;
    while k < n
      invariant 0 <= k <= n && n == |FilaDe(p, s)| && Crece(old(t.nodos), t.nodos)
      invariant nodo < |t.nodos| && t.nodos[nodo].estado == s && t.nodos[nodo].acciones == FilaDe(p, s)
      invariant Registro(p, t.nodos, raiz, nueva, explorados) && Valorados(p, t.nodos, nueva) && Raiz(t.nodos, nodo) == raiz
      invariant tope.None? ==> CubreSalvo(p, explorados, EstadosDe(t.nodos, nueva), s, k)
      invariant tope.Some? ==> |nueva| <= tope.value + 1
    {
      ghost var antes := t.nodos;
      nueva := AmpliaAccion(p, t, raiz, nodo, k, nueva, explorados, c, tope);
      CreceTransitivo(old(t.nodos), antes, t.nodos);
      k := k + 1;
    }
    if tope.None? {
      CubreCompleto(p, explorados, EstadosDe(t.nodos, nueva), s);
    }
  }

  /** A fresh root for the initial state starts the loop of a best-first search. */
  lemma ArranqueMejor(p: Problema, nodos: seq<Nodo>, raiz: nat, tope: Option<nat>)
    requires Buenos(p, nodos) && Tasado(p) && raiz < |nodos| && Raiz(nodos, raiz) == raiz && nodos[raiz] == RaizInformada(p)
    ensures EnCursoMejor(p, nodos, raiz, [raiz], {}, tope)
  {
    assert EstadosDe(nodos, [raiz]) == [p.estadoInicial];
  }

  /** Without a cap, an empty frontier shows no goal is reachable. */
  lemma AgotadoMejor(p: Problema, nodos: seq<Nodo>, raiz: nat, e: set<string>)
    requires EnCursoMejor(p, nodos, raiz, [], e, None)
    ensures SinSolucion(p)
  {
    assert EstadosDe(nodos, []) == [];
    CubreVacio(p, e);
    CerradoSinSolucion(p, e);
  }

  /** Taking a node out of the frontier keeps the tables of the others. */
  lemma ValoradosSaca(p: Problema, nodos: seq<Nodo>, fr: seq<nat>, k: nat)
    requires Valorados(p, nodos, fr) && k < |fr|
    ensures Valorados(p, nodos, fr[..k] + fr[k + 1..])
  {
    var resto := fr[..k] + fr[k + 1..];
    forall y | y in resto ensures y in fr {
      var i :| 0 <= i < |resto| && resto[i] == y;
      if i < k {
        assert resto[i] == fr[i];
      } else {
        assert resto[i] == fr[i + 1];
      }
    }
    assert fr[k] in fr;
    ValoradosDe(p, nodos, fr, resto, fr[k]);
  }

  /**
   * Taking the node at position `k`, not a goal, out of the frontier and
   * exploring its state keeps the invariant, except for the actions of that
   * state.
   */
  lemma SacaMejor(p: Problema, nodos: seq<Nodo>, raiz: nat, fr: seq<nat>, e: set<string>, tope: Option<nat>, k: nat)
    requires EnCursoMejor(p, nodos, raiz, fr, e, tope) && k < |fr| && !EsObjetivo(p, nodos[fr[k]].estado)
    ensures var x := nodos[fr[k]].estado;
      var resto := fr[..k] + fr[k + 1..];
      Registro(p, nodos, raiz, resto, e + {x}) && Valorados(p, nodos, resto) && x !in e && Raiz(nodos, fr[k]) == raiz
      && SinObjetivo(p, e + {x})
      && (tope.None? ==> CubreSalvo(p, e + {x}, EstadosDe(nodos, resto), x, 0) && p.estadoInicial in e + {x})
      && (tope.Some? ==> |resto| <= tope.value + 1)
  {
    var x := nodos[fr[k]].estado;
    var resto := fr[..k] + fr[k + 1..];
    RegistroSaca(p, nodos, raiz, fr, e, k);
    if tope.None? {
      CubreSaca(p, e, EstadosDe(nodos, fr), k);
      if fr == [raiz] {
        assert x == p.estadoInicial;
      }
    }
    ValoradosSaca(p, nodos, fr, k);
  }

  /** A goal taken out of the frontier of a best-first search ends a chain from the root, so a goal is reachable. */
  lemma SacaObjetivo(p: Problema, nodos: seq<Nodo>, raiz: nat, fr: seq<nat>, e: set<string>, tope: Option<nat>, k: nat)
    requires EnCursoMejor(p, nodos, raiz, fr, e, tope) && k < |fr| && EsObjetivo(p, nodos[fr[k]].estado)
    ensures fr[k] < |nodos| && raiz < |nodos| && Solucion(p, nodos, raiz, fr[k]) && !SinSolucion(p)
  {
    assert Registro(p, nodos, raiz, fr, e) && Raiz(nodos, fr[k]) == raiz;
    Encontrado(p, nodos, raiz, fr[k]);
  }

  /**
   * The rest of a turn once a node that is not a goal has left the frontier
   * (`resto`): its state is explored and, when it has actions, its children
   * are considered.
   */
  method ExploraMejor(p: Problema, t: Arbol, raiz: nat, frontera: seq<nat>, explorados: set<string>,
                      c: Criterio, tope: Option<nat>, ghost k: nat, nodo: nat, resto: seq<nat>)
    returns (nueva: seq<nat>, vistos: set<string>)
    requires Tasado(p) && EnCursoMejor(p, t.nodos, raiz, frontera, explorados, tope)
    requires k < |frontera| && nodo == frontera[k] && resto == frontera[..k] + frontera[k + 1..]
    requires !EsObjetivo(p, t.nodos[nodo].estado)
    modifies t
    ensures Buenos(p, t.nodos) && Crece(old(t.nodos), t.nodos)
    ensures vistos == explorados + {old(t.nodos)[nodo].estado}
    ensures Estados(p) - vistos < Estados(p) - explorados && EnCursoMejor(p, t.nodos, raiz, nueva, vistos, tope)
  {
    SacaMejor(p, t.nodos, raiz, frontera, explorados, tope, k);
    vistos := explorados + {t.nodos[nodo].estado};
    nueva := resto;
    assert NodoBueno(p, t.nodos, nodo);
    assert Estados(p) - vistos < Estados(p) - explorados by {
      assert t.nodos[nodo].estado in Estados(p) - explorados;
    }
    if t.nodos[nodo].acciones == [] {
      if tope.None? {
        CubreSinAcciones(p, vistos, EstadosDe(t.nodos, nueva), t.nodos[nodo].estado);
      }
      return;
    }
    nueva := AmpliaMejor(p, t, raiz, nodo, resto, vistos, c, tope);
  }

  /**
   * One turn of the loop of a best-first search on a non-empty frontier:
   * `sacar_siguiente` takes out the best node under `metrica` (criterion
   * `menor`, over the goals of the problem); it is returned when it is a
   * goal, otherwise its state is explored and its children are considered.
   */
  method PasoMejor(p: Problema, t: Arbol, raiz: nat, frontera: seq<nat>, explorados: set<string>,
                   metrica: string, c: Criterio, tope: Option<nat>)
    returns (nodo: nat, nueva: seq<nat>, vistos: set<string>, r: Option<nat>)
    requires Tasado(p) && EnCursoMejor(p, t.nodos, raiz, frontera, explorados, tope) && frontera != []
    requires metrica in METRICAS_SACAR
    modifies t
    ensures nodo == Escoge(p, old(t.nodos), METRICAS_SACAR, metrica, "menor", frontera[0], frontera[1..], p.objetivos)
    ensures Buenos(p, t.nodos) && Crece(old(t.nodos), t.nodos)
    ensures r.Some? ==> (r.value == nodo && r.value < |t.nodos| && EsObjetivo(p, t.nodos[r.value].estado)
      && raiz < |t.nodos| && Solucion(p, t.nodos, raiz, r.value) && !SinSolucion(p))
    ensures r.None? ==> Estados(p) - vistos < Estados(p) - explorados && EnCursoMejor(p, t.nodos, raiz, nueva, vistos, tope)
  {
    ValoradosMedibles(p, t.nodos, frontera, metrica);
    var sacado;
    sacado, nueva := SacarSiguiente(p, t, frontera, metrica, "menor", p.objetivos);
    nodo := sacado.value;
    ghost var k := Posicion(frontera, nodo);
    vistos := explorados;
    r := None;
    if EsObjetivo(p, t.nodos[nodo].estado) {
      SacaObjetivo(p, t.nodos, raiz, frontera, explorados, tope, k);
      r := Some(nodo);
      return;
    }
    assert nueva == frontera[..k] + frontera[k + 1..];
    nueva, vistos := ExploraMejor(p, t, raiz, frontera, explorados, c, tope, k, nodo, nueva);
  }

  /**
   * The loop shared by `voraz`, `a_estrella` and `sma_estrella`: from a
   * fresh root, nodes leave the frontier best first under `metrica` and are
   * checked for the goal then. A returned node is a goal on a chain from the
   * root. Without a cap, None comes back exactly when no goal can be
   * reached; with one, dropped nodes may hide the only way to a goal.
   */
  method PrimeroMejor(p: Problema, t: Arbol, metrica: string, c: Criterio, tope: Option<nat>) returns (r: Option<nat>)
    requires Buenos(p, t.nodos) && Tasado(p) && metrica in METRICAS_SACAR
    modifies t
    ensures Buenos(p, t.nodos) && Crece(old(t.nodos), t.nodos) && |old(t.nodos)| < |t.nodos|
    ensures t.nodos[|old(t.nodos)|] == RaizInformada(p).(hijos := t.nodos[|old(t.nodos)|].hijos)
    ensures r.Some? ==> (r.value < |t.nodos| && EsObjetivo(p, t.nodos[r.value].estado)
                         && Solucion(p, t.nodos, |old(t.nodos)|, r.value))
    ensures tope.None? ==> (r.None? <==> SinSolucion(p))
  {
    var raiz := CreaNodoRaiz(p, t);
    ghost var inicio := t.nodos;
    var frontera := [raiz];
    var explorados: set<string> := {};
    ArranqueMejor(p, t.nodos, raiz, tope);
    while true
      invariant Crece(old(t.nodos), t.nodos) && Crece(inicio, t.nodos) && raiz == |old(t.nodos)| < |inicio|
      invariant inicio[raiz] == RaizInformada(p)
      invariant EnCursoMejor(p, t.nodos, raiz, frontera, explorados, tope)
      decreases Estados(p) - explorados
    {
      if frontera == [] {
        if tope.None? {
          AgotadoMejor(p, t.nodos, raiz, explorados);
        }
        return None;
      }
      ghost var antes := t.nodos;
      var nodo, encontrado;
      nodo, frontera, explorados, encontrado := PasoMejor(p, t, raiz, frontera, explorados, metrica, c, tope);
      CreceTransitivo(old(t.nodos), antes, t.nodos);
      CreceTransitivo(inicio, antes, t.nodos);
      if encontrado.Some? {
        return encontrado;
      }
    }
  }

  /**
   * `voraz`: best first by heuristic; a frontier node gives its place to a
   * child for its state with a strictly smaller least heuristic.
   */
  method Voraz(p: Problema, t: Arbol) returns (r: Option<nat>)
    requires Buenos(p, t.nodos) && Tasado(p)
    modifies t
    ensures Buenos(p, t.nodos) && Crece(old(t.nodos), t.nodos) && |old(t.nodos)| < |t.nodos|
    ensures t.nodos[|old(t.nodos)|] == RaizInformada(p).(hijos := t.nodos[|old(t.nodos)|].hijos)
    ensures r.Some? ==> (r.value < |t.nodos| && EsObjetivo(p, t.nodos[r.value].estado)
                         && Solucion(p, t.nodos, |old(t.nodos)|, r.value))
    ensures r.None? <==> SinSolucion(p)
  {
    r := PrimeroMejor(p, t, "heuristica", MenorHeuristica(p.objetivos), None);
  }

  /**
   * `a_estrella`: best first by `valores` (cost plus heuristic); a frontier
   * node gives its place to a child for its state with a strictly smaller
   * least value.
   */
  method AEstrella(p: Problema, t: Arbol) returns (r: Option<nat>)
    requires Buenos(p, t.nodos) && Tasado(p)
    modifies t
    ensures Buenos(p, t.nodos) && Crece(old(t.nodos), t.nodos) && |old(t.nodos)| < |t.nodos|
    ensures t.nodos[|old(t.nodos)|] == RaizInformada(p).(hijos := t.nodos[|old(t.nodos)|].hijos)
    ensures r.Some? ==> (r.value < |t.nodos| && EsObjetivo(p, t.nodos[r.value].estado)
                         && Solucion(p, t.nodos, |old(t.nodos)|, r.value))
    ensures r.None? <==> SinSolucion(p)
  {
    r := PrimeroMejor(p, t, "valor", MenorValor(p.objetivos), None);
  }

  /**
   * `sma_estrella`: `a_estrella` whose frontier, before a node for a new
   * state is appended, is cut back by its worst node when it holds more than
   * `maximo` nodes. It can miss a reachable goal, but what it returns is a
   * goal on a chain from the root.
   */
  method SmaEstrella(p: Problema, t: Arbol, maximo: nat) returns (r: Option<nat>)
    requires Buenos(p, t.nodos) && Tasado(p)
    modifies t
    ensures Buenos(p, t.nodos) && Crece(old(t.nodos), t.nodos) && |old(t.nodos)| < |t.nodos|
    ensures t.nodos[|old(t.nodos)|] == RaizInformada(p).(hijos := t.nodos[|old(t.nodos)|].hijos)
    ensures r.Some? ==> (r.value < |t.nodos| && EsObjetivo(p, t.nodos[r.value].estado)
                         && Solucion(p, t.nodos, |old(t.nodos)|, r.value))
  {
    r := PrimeroMejor(p, t, "valor", MenorValor(p.objetivos), Some(maximo));
  }

  // ---------------------------------------------------------------------------
  // a_estrella_iterativa / ida_estrella
  // ---------------------------------------------------------------------------

  /** The limit `a_estrella_iterativa` works with: `limite`, or `infinito` when that is not positive. */
  function LimiteEfectivo(p: Problema, limite: int): (l: int)
    ensures l == limite || l == p.infinito
    ensures l > 0 || l == p.infinito
    ensures limite > 0 ==> l == limite
  {
    if limite <= 0 then p.infinito else limite
  }

  /** A node's value for `a_estrella_iterativa`: the least of its `valores` over the goals. */
  function ValorNodo(p: Problema, nodos: seq<Nodo>, x: nat): (v: int)
    requires x < |nodos| && p.objetivos != [] && Valorados(p, nodos, [x])
    ensures exists g :: g in p.objetivos && v == nodos[x].valores[Nombre(g)]
    ensures forall g :: g in p.objetivos ==> v <= nodos[x].valores[Nombre(g)]
  {
    assert x in [x];
    var vs := PorObjetivo(nodos[x].valores, p.objetivos);
    var m := Minimo(vs);
    var k :| 0 <= k < |vs| && vs[k] == m;
    assert m == nodos[x].valores[Nombre(p.objetivos[k])];
    forall g | g in p.objetivos ensures m <= nodos[x].valores[Nombre(g)] {
      var i :| 0 <= i < |p.objetivos| && p.objetivos[i] == g;
      assert vs[i] == nodos[x].valores[Nombre(g)];
    }
    m
  }

  /** Growing the tree keeps a node's tables, so its value. */
  lemma ValorCrece(p: Problema, viejos: seq<Nodo>, nuevos: seq<Nodo>, x: nat)
    requires Crece(viejos, nuevos) && x < |viejos| && p.objetivos != [] && Valorados(p, viejos, [x])
    ensures x < |nuevos| && Valorados(p, nuevos, [x]) && ValorNodo(p, nuevos, x) == ValorNodo(p, viejos, x)
  {
    ValoradosCrece(p, viejos, nuevos, [x]);
    assert nuevos[x] == viejos[x].(hijos := nuevos[x].hijos);
  }

  /** What a successful `a_estrella_iterativa` returns: a goal node in the tree of `raiz`, valued within the limit. */
  ghost predicate Hallado(p: Problema, nodos: seq<Nodo>, raiz: nat, x: nat, l: int)
    requires Arena(nodos)
  {
    x < |nodos| && EsObjetivo(p, nodos[x].estado) && Raiz(nodos, x) == raiz
    && p.objetivos != [] && Valorados(p, nodos, [x]) && ValorNodo(p, nodos, x) <= l
  }

  /** Growing the tree keeps a found node found. */
  lemma HalladoCrece(p: Problema, viejos: seq<Nodo>, nuevos: seq<Nodo>, raiz: nat, x: nat, l: int)
    requires Arena(viejos) && Arena(nuevos) && Crece(viejos, nuevos) && Hallado(p, viejos, raiz, x, l)
    ensures Hallado(p, nuevos, raiz, x, l)
  {
    ValorCrece(p, viejos, nuevos, x);
    CreceEstable(p, viejos, nuevos, x);
  }

  /**
   * What a failing `a_estrella_iterativa` reports as the next limit: as
   * written, a value not below the limit `l` (a dead end reports `l`
   * itself) or `infinito`; with dead ends reporting `infinito`, a value
   * strictly above `l` or `infinito`.
   */
  predicate Supera(p: Problema, l: int, lim: int, corregida: bool)
  {
    (if corregida then lim > l else lim >= l) || lim == p.infinito
  }

  /**
   * `a_estrella_iterativa` with a node and an explored set given: the node's
   * state joins the explored set (shared with the caller); a node valued
   * above the limit fails with its value; a goal is returned with the limit;
   * a node without actions fails with the limit (`infinito` when
   * `corregida`); otherwise the children whose states are not explored are
   * searched in turn, and the first success ends the search; failing that,
   * the least reported limit (at most `infinito`) comes back.
   */
  method AEstrellaIterativa(p: Problema, t: Arbol, nodo: nat, limite: int, explorados: set<string>, corregida: bool)
    returns (r: Option<nat>, lim: int, vistos: set<string>)
    requires Tasado(p) && p.objetivos != [] && Buenos(p, t.nodos) && nodo < |t.nodos| && Valorados(p, t.nodos, [nodo])
    modifies t
    ensures Buenos(p, t.nodos) && Crece(old(t.nodos), t.nodos)
    ensures explorados + {old(t.nodos)[nodo].estado} <= vistos
    ensures var l := LimiteEfectivo(p, limite);
      var v := ValorNodo(p, old(t.nodos), nodo);
      (v > l ==> r.None? && lim == v)
      && (r.Some? ==> v <= l && lim == l && Hallado(p, t.nodos, Raiz(old(t.nodos), nodo), r.value, l))
      && (v <= l && EsObjetivo(p, old(t.nodos)[nodo].estado) ==> r == Some(nodo))
      && (v <= l && !EsObjetivo(p, old(t.nodos)[nodo].estado) && old(t.nodos)[nodo].acciones == [] ==>
            r.None? && lim == if corregida then p.infinito else l)
      && (r.None? ==> Supera(p, l, lim, corregida))
    decreases Estados(p) - (explorados + {t.nodos[nodo].estado}), 2
  {
    var s := t.nodos[nodo].estado;
    vistos := explorados + {s};
    var l := LimiteEfectivo(p, limite);
    var v := ValorNodo(p, t.nodos, nodo);
    if v > l {
      return None, v, vistos;
    }
    if EsObjetivo(p, s) {
      return Some(nodo), l, vistos;
    }
    if t.nodos[nodo].acciones == [] {
      lim := if corregida then p.infinito else l;
      return None, lim, vistos;
    }
    r, lim, vistos := AIterHijos(p, t, nodo, l, vistos, corregida);
  }

  /**
   * The loop of `a_estrella_iterativa` over the node's actions, from a
   * minimum of `infinito`: each child for a state not explored yet is
   * searched with the same limit; the first success ends the loop, and a
   * failure lowers the minimum to the limit it reports.
   */
  method AIterHijos(p: Problema, t: Arbol, nodo: nat, l: int, explorados: set<string>, corregida: bool)
    returns (r: Option<nat>, minimo: int, vistos: set<string>)
    requires Tasado(p) && p.objetivos != [] && Buenos(p, t.nodos) && nodo < |t.nodos| && t.nodos[nodo].estado in explorados
    requires l > 0 || l == p.infinito
    modifies t
    ensures Buenos(p, t.nodos) && Crece(old(t.nodos), t.nodos) && explorados <= vistos
    ensures r.Some? ==> minimo == l && Hallado(p, t.nodos, Raiz(old(t.nodos), nodo), r.value, l)
    ensures r.None? ==> minimo <= p.infinito && Supera(p, l, minimo, corregida)
    decreases Estados(p) - explorados, 1
  {
    assert NodoBueno(p, t.nodos, nodo);
    var n := |t.nodos[nodo].acciones|;
    minimo := p.infinito;
    vistos := explorados;
    var k := 0;
    while k < n
      invariant 0 <= k <= n && nodo < |t.nodos| && n == |t.nodos[nodo].acciones|
      invariant Buenos(p, t.nodos) && Crece(old(t.nodos), t.nodos) && explorados <= vistos
      invariant Raiz(t.nodos, nodo) == Raiz(old(t.nodos), nodo)
      invariant minimo <= p.infinito && Supera(p, l, minimo, corregida)
    {
      ghost var antes := t.nodos;
      var res, lh;
      res, lh, vistos := AIterHijo(p, t, nodo, k, l, vistos, corregida);
      CreceTransitivo(old(t.nodos), antes, t.nodos);
      CreceEstable(p, antes, t.nodos, nodo);
      if res.Some? {
        return res, l, vistos;
      }
      if lh.Some? && lh.value < minimo {
        minimo := lh.value;
      }
      k := k + 1;
    }
    r := None;
  }

  /**
   * One turn of the loop of `a_estrella_iterativa`: the child for the
   * `k`-th action is built and linked to the node and, when its state is not
   * explored, searched with the same limit; `lh` is the limit it reports,
   * None when it was skipped.
   */
  method AIterHijo(p: Problema, t: Arbol, nodo: nat, k: nat, l: int, explorados: set<string>, corregida: bool)
    returns (r: Option<nat>, lh: Option<int>, vistos: set<string>)
    requires Tasado(p) && p.objetivos != [] && Buenos(p, t.nodos) && nodo < |t.nodos| && k < |t.nodos[nodo].acciones|
    requires l > 0 || l == p.infinito
    modifies t
    ensures Buenos(p, t.nodos) && Crece(old(t.nodos), t.nodos) && explorados <= vistos
    ensures r.Some? ==> lh == Some(l) && Hallado(p, t.nodos, Raiz(old(t.nodos), nodo), r.value, l)
    ensures r.None? && lh.Some? ==> Supera(p, l, lh.value, corregida)
    decreases Estados(p) - explorados, 0
  {
    var hijo := NuevoHijo(p, t, nodo, k, true);
    vistos := explorados;
    r, lh := None, None;
    if t.nodos[hijo].estado !in explorados {
      ghost var medio := t.nodos;
      assert t.nodos[hijo].estado in Estados(p) - explorados;
      var lim;
      r, lim, vistos := AEstrellaIterativa(p, t, hijo, l, explorados, corregida);
      lh := Some(lim);
      CreceTransitivo(old(t.nodos), medio, t.nodos);
    }
  }

  /** The first limit of `ida_estrella`: the least heuristic of the initial state over the goals. */
  function CotaInicial(p: Problema): (c: int)
    requires Tasado(p) && p.objetivos != []
    ensures exists g :: g in p.objetivos && c == p.heuristicas[p.estadoInicial][Nombre(g)]
    ensures forall g :: g in p.objetivos ==> c <= p.heuristicas[p.estadoInicial][Nombre(g)]
  {
    var vs := PorObjetivo(p.heuristicas[p.estadoInicial], p.objetivos);
    var m := Minimo(vs);
    var k :| 0 <= k < |vs| && vs[k] == m;
    assert m == p.heuristicas[p.estadoInicial][Nombre(p.objetivos[k])];
    forall g | g in p.objetivos ensures m <= p.heuristicas[p.estadoInicial][Nombre(g)] {
      var i :| 0 <= i < |p.objetivos| && p.objetivos[i] == g;
      assert vs[i] == p.heuristicas[p.estadoInicial][Nombre(g)];
    }
    m
  }

  /**
   * The initial state is a dead end that is not a goal, and the first limit
   * is positive and below `infinito`.
   */
  predicate CallejonInicial(p: Problema)
    requires Tasado(p) && p.objetivos != []
  {
    FilaDe(p, p.estadoInicial) == [] && !EsObjetivo(p, p.estadoInicial)
    && CotaInicial(p) > 0 && CotaInicial(p) != p.infinito
  }

  /**
   * One round of `ida_estrella`: `a_estrella_iterativa` from the root with
   * the current limit and a fresh explored set.
   */
  method IdaRonda(p: Problema, t: Arbol, raiz: nat, limite: int, corregida: bool) returns (r: Option<nat>, lim: int)
    requires Buenos(p, t.nodos) && Tasado(p) && p.objetivos != [] && raiz < |t.nodos| && Raiz(t.nodos, raiz) == raiz
    requires t.nodos[raiz] == RaizInformada(p).(hijos := t.nodos[raiz].hijos)
    modifies t
    ensures Buenos(p, t.nodos) && Crece(old(t.nodos), t.nodos) && Raiz(t.nodos, raiz) == raiz
    ensures t.nodos[raiz] == RaizInformada(p).(hijos := t.nodos[raiz].hijos)
    ensures r.Some? ==> lim == LimiteEfectivo(p, limite) && Hallado(p, t.nodos, raiz, r.value, lim)
                        && Solucion(p, t.nodos, raiz, r.value)
    ensures r.None? ==> Supera(p, LimiteEfectivo(p, limite), lim, corregida)
    ensures CallejonInicial(p) && limite == CotaInicial(p) ==> r.None? && lim == if corregida then p.infinito else limite
  {
    assert raiz in [raiz];
    assert ValorNodo(p, t.nodos, raiz) == CotaInicial(p);
    assert NodoBueno(p, t.nodos, raiz);
    var vistos;
    r, lim, vistos := AEstrellaIterativa(p, t, raiz, limite, {}, corregida);
    CreceEstable(p, old(t.nodos), t.nodos, raiz);
    assert t.nodos[raiz] == old(t.nodos)[raiz].(hijos := t.nodos[raiz].hijos);
    if r.Some? {
      Encontrado(p, t.nodos, raiz, r.value);
    }
  }

  /**
   * `ida_estrella`, run for at most `fuel` rounds (`agotado` when they run
   * out): from the least heuristic of the root, `a_estrella_iterativa` is
   * started afresh with the limit the previous round reported, until it
   * finds a goal or reports `infinito`. With `corregida`, dead ends report
   * `infinito`, and every failing round raises the limit.
   */
  method IdaBucle(p: Problema, t: Arbol, fuel: nat, corregida: bool) returns (r: Option<nat>, limite: int, agotado: bool)
    requires Buenos(p, t.nodos) && Tasado(p) && p.objetivos != []
    modifies t
    ensures Buenos(p, t.nodos) && Crece(old(t.nodos), t.nodos) && |old(t.nodos)| < |t.nodos|
    ensures t.nodos[|old(t.nodos)|] == RaizInformada(p).(hijos := t.nodos[|old(t.nodos)|].hijos)
    ensures r.Some? ==> !agotado && Hallado(p, t.nodos, |old(t.nodos)|, r.value, limite)
                        && Solucion(p, t.nodos, |old(t.nodos)|, r.value)
    ensures r.None? && !agotado ==> limite == p.infinito
    ensures agotado ==> r.None?
    ensures corregida && agotado && CotaInicial(p) > 0 ==> limite >= CotaInicial(p) + fuel
    ensures CallejonInicial(p) ==> r.None? && (agotado <==> !corregida || fuel == 0)
  {
    var raiz := CreaNodoRaiz(p, t);
    limite := Minimo(PorObjetivo(t.nodos[raiz].heuristicas, p.objetivos));
    assert limite == CotaInicial(p);
    var n := 0;
    while n < fuel
      invariant n <= fuel && Buenos(p, t.nodos) && Crece(old(t.nodos), t.nodos)
      invariant raiz == |old(t.nodos)| < |t.nodos| && Raiz(t.nodos, raiz) == raiz
      invariant t.nodos[raiz] == RaizInformada(p).(hijos := t.nodos[raiz].hijos)
      invariant corregida && CotaInicial(p) > 0 ==> limite >= CotaInicial(p) + n
      invariant CallejonInicial(p) ==> limite == CotaInicial(p) && (corregida ==> n == 0)
    {
      ghost var antes := t.nodos;
      var nodo;
      nodo, limite := IdaRonda(p, t, raiz, limite, corregida);
      CreceTransitivo(old(t.nodos), antes, t.nodos);
      if nodo.Some? {
        return nodo, limite, false;
      }
      if limite == p.infinito {
        return None, limite, false;
      }
      n := n + 1;
    }
    return None, limite, true;
  }

  /** `ida_estrella` as written: a dead end within the limit reports the limit itself. */
  method IdaEstrella(p: Problema, t: Arbol, fuel: nat) returns (r: Option<nat>, agotado: bool)
    requires Buenos(p, t.nodos) && Tasado(p) && p.objetivos != []
    modifies t
    ensures Buenos(p, t.nodos) && Crece(old(t.nodos), t.nodos) && |old(t.nodos)| < |t.nodos|
    ensures r.Some? ==> !agotado && r.value < |t.nodos| && EsObjetivo(p, t.nodos[r.value].estado)
                        && Solucion(p, t.nodos, |old(t.nodos)|, r.value)
    ensures agotado ==> r.None?
    ensures CallejonInicial(p) ==> r.None? && agotado
  {
    var limite;
    r, limite, agotado := IdaBucle(p, t, fuel, false);
  }

  /**
   * `ida_estrella` with dead ends reporting `infinito`: a failing round
   * raises the limit, and a dead-end initial state ends the search at once.
   */
  method IdaEstrellaCorregida(p: Problema, t: Arbol, fuel: nat) returns (r: Option<nat>, agotado: bool)
    requires Buenos(p, t.nodos) && Tasado(p) && p.objetivos != []
    modifies t
    ensures Buenos(p, t.nodos) && Crece(old(t.nodos), t.nodos) && |old(t.nodos)| < |t.nodos|
    ensures r.Some? ==> !agotado && r.value < |t.nodos| && EsObjetivo(p, t.nodos[r.value].estado)
                        && Solucion(p, t.nodos, |old(t.nodos)|, r.value)
    ensures agotado ==> r.None?
    ensures CallejonInicial(p) && fuel > 0 ==> r.None? && !agotado
  {
    var limite;
    r, limite, agotado := IdaBucle(p, t, fuel, true);
  }

  /** A problem whose initial state is a dead end: the goal `B` cannot be reached from `A`. */
  const CALLEJON: Problema := Problema("A", ["B"], map[], map[], map["A" := map[Nombre("B") := 1], "B" := map[Nombre("B") := 0]], 100)

  /**
   * `ida_estrella` as written never ends on `CALLEJON`: no number of rounds
   * suffices, where reporting `infinito` for the dead end ends it in one.
   */
  lemma CallejonSinFin()
    ensures Tasado(CALLEJON) && CALLEJON.objetivos != [] && CallejonInicial(CALLEJON) && SinSolucion(CALLEJON)
  {
    var p := CALLEJON;
    assert Estados(p) == {"A", "B"};
    assert PorObjetivo(p.heuristicas["A"], p.objetivos) == [1];
    forall ss | Camino(p, ss) && ss != [] && ss[0] == p.estadoInicial
      ensures forall i :: 0 <= i < |ss| ==> !EsObjetivo(p, ss[i])
    {
      assert |ss| <= 1 || Paso(p, ss[0], ss[1]);
    }
  }
}
