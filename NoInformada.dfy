/**
 * The uninformed searches of `busqueda/noinformada.py` over the problems and
 * nodes of `busqueda/grafos.py`. Nodes live in the arena of `Grafos.Arbol`;
 * a frontier is a list of arena indices and the explored set is a set of
 * state names.
 */
module NoInformada {
  import opened Tipos
  import opened Grafos
  import opened Espacio
  import opened Frontera

  // ---------------------------------------------------------------------------
  // crea_nodo_raiz / crea_nodo_hijo
  // ---------------------------------------------------------------------------

  /**
   * `crea_nodo_raiz`: a parentless node for the given state (the initial
   * state when none is given) with its row of actions (`{}` when the table
   * has none) and cost 0.
   */
  method CreaNodoRaiz(p: Problema, t: Arbol, estado: Option<string>) returns (raiz: nat)
    requires Buenos(p, t.nodos) && (estado.Some? ==> estado.value in Estados(p))
    modifies t
    ensures raiz == |old(t.nodos)|
    ensures var e := if estado.Some? then estado.value else p.estadoInicial;
      t.nodos == old(t.nodos) + [NodoNuevo(e, None, FilaDe(p, e), None)]
    ensures Buenos(p, t.nodos) && Crece(old(t.nodos), t.nodos) && Raiz(t.nodos, raiz) == raiz
  {
    var e := if estado.Some? then estado.value else p.estadoInicial;
    var acciones: Tabla := [];
    if e in p.acciones {
      acciones := p.acciones[e];
    }
    var nodo := NodoNuevo(e, None, acciones, None).(coste := 0);
    AgregaRaiz(p, t.nodos, nodo);
    raiz := t.Nuevo(nodo);
  }

  /**
   * `crea_nodo_hijo`: the child reached from `padre` by `accion`, with its
   * state's row, cost `padre.coste` plus the cost of the action, linked to
   * `padre` and appended to its children.
   */
  method CreaNodoHijo(p: Problema, t: Arbol, padre: nat, accion: string) returns (hijo: nat)
    requires Buenos(p, t.nodos) && padre < |t.nodos| && Resultado(p, t.nodos[padre].estado, accion).Some?
    modifies t
    ensures hijo == |old(t.nodos)|
    ensures var e := Resultado(p, old(t.nodos)[padre].estado, accion).value;
      var c := old(t.nodos)[padre].coste + CosteAccion(p, old(t.nodos)[padre].estado, accion);
      t.nodos == Colgado(old(t.nodos), padre, Hijo(p, padre, (accion, e), c))
    ensures Buenos(p, t.nodos) && Crece(old(t.nodos), t.nodos) && Raiz(t.nodos, hijo) == Raiz(old(t.nodos), padre)
  {
    var e := Resultado(p, t.nodos[padre].estado, accion).value;
    var acciones: Tabla := [];
    if e in p.acciones {
      acciones := p.acciones[e];
    }
    var nodo := NodoNuevo(e, Some(accion), acciones, Some(padre));
    nodo := nodo.(coste := t.nodos[padre].coste + CosteAccion(p, t.nodos[padre].estado, accion));
    AgregaHijo(p, t.nodos, padre, nodo);
    hijo := t.Colgar(padre, nodo);
  }

  /**
   * In a tree built by `crea_nodo_raiz` and `crea_nodo_hijo` every node's
   * `coste` is `coste_camino` of the node.
   */
  lemma CosteEsCamino(p: Problema, nodos: seq<Nodo>, j: nat)
    requires Buenos(p, nodos) && j < |nodos| && nodos[Raiz(nodos, j)].coste == 0
    ensures nodos[j].coste == CosteRuta(p, nodos, j)
  {
    CosteAcumulado(p, nodos, j);
  }

  // ---------------------------------------------------------------------------
  // anchura / profundidad
  // ---------------------------------------------------------------------------

  /**
   * The invariant of the loops of `anchura` and `profundidad`: the
   * bookkeeping holds, every action of an explored state leads to an explored
   * or a frontier state, no goal has been seen, and the initial state is
   * explored unless the frontier still holds just the root.
   */
  ghost predicate EnCurso(p: Problema, nodos: seq<Nodo>, raiz: nat, fr: seq<nat>, e: set<string>)
  {
    Registro(p, nodos, raiz, fr, e)
    && Cubre(p, e, EstadosDe(nodos, fr)) && Limpio(p, e, EstadosDe(nodos, fr))
    && (p.estadoInicial in e || fr == [raiz])
  }

  /** A root for the initial state that is not a goal starts the loop of `anchura` and `profundidad`. */
  lemma Arranque(p: Problema, nodos: seq<Nodo>, raiz: nat)
    requires Buenos(p, nodos) && raiz < |nodos| && Raiz(nodos, raiz) == raiz
    requires nodos[raiz] == NodoNuevo(p.estadoInicial, None, FilaDe(p, p.estadoInicial), None)
    requires !EsObjetivo(p, p.estadoInicial)
    ensures EnCurso(p, nodos, raiz, [raiz], {})
  {
    assert EstadosDe(nodos, [raiz]) == [p.estadoInicial];
  }

  /** With an empty frontier the loop's invariant shows no goal is reachable. */
  lemma Agotado(p: Problema, nodos: seq<Nodo>, raiz: nat, e: set<string>)
    requires EnCurso(p, nodos, raiz, [], e)
    ensures SinSolucion(p)
    ensures raiz < |nodos| && nodos[raiz].estado == p.estadoInicial && nodos[raiz].padre.None? && nodos[raiz].coste == 0
  {
    assert EstadosDe(nodos, []) == [];
    CubreVacio(p, e);
    CerradoSinSolucion(p, e);
  }

  /**
   * The loop over the actions of `nodo` in `anchura` and `profundidad`: each
   * child is built; one whose state is neither explored nor on the frontier
   * is returned when it is a goal and appended to the frontier otherwise.
   */
  method AmpliaCiega(p: Problema, t: Arbol, raiz: nat, nodo: nat, frontera: seq<nat>, explorados: set<string>)
    returns (nueva: seq<nat>, r: Option<nat>)
    requires Registro(p, t.nodos, raiz, frontera, explorados) && nodo < |t.nodos| && Raiz(t.nodos, nodo) == raiz
    requires t.nodos[nodo].estado in explorados
    requires CubreSalvo(p, explorados, EstadosDe(t.nodos, frontera), t.nodos[nodo].estado, 0)
    requires Limpio(p, explorados, EstadosDe(t.nodos, frontera))
    modifies t
    ensures Buenos(p, t.nodos) && Crece(old(t.nodos), t.nodos)
    ensures |frontera| <= |nueva| && nueva[..|frontera|] == frontera
    ensures r.Some? ==> r.value < |t.nodos| && Raiz(t.nodos, r.value) == raiz && EsObjetivo(p, t.nodos[r.value].estado)
    ensures r.None? ==> (Registro(p, t.nodos, raiz, nueva, explorados)
      && Cubre(p, explorados, EstadosDe(t.nodos, nueva)) && Limpio(p, explorados, EstadosDe(t.nodos, nueva)))
  {
    ghost var s := t.nodos[nodo].estado;
    ghost var viejos := t.nodos;
    var acciones := t.nodos[nodo].acciones;
    assert NodoBueno(p, t.nodos, nodo);
    nueva := frontera;
    r := None;
    var k := 0;
    while k < |acciones|
      invariant 0 <= k <= |acciones| && acciones == FilaDe(p, s)
      invariant nodo < |t.nodos| && t.nodos[nodo].estado == s && t.nodos[nodo].acciones == acciones
      invariant Registro(p, t.nodos, raiz, nueva, explorados)
      invariant Crece(viejos, t.nodos) && Raiz(t.nodos, nodo) == raiz
      invariant |frontera| <= |nueva| && nueva[..|frontera|] == frontera
      invariant CubreSalvo(p, explorados, EstadosDe(t.nodos, nueva), s, k)
      invariant Limpio(p, explorados, EstadosDe(t.nodos, nueva))
    {
      ghost var antes := t.nodos;
      AccionDeNodo(p, t.nodos, nodo, k);
      var hijo := CreaNodoHijo(p, t, nodo, acciones[k].0);
      RegistroCrece(p, antes, t.nodos, raiz, nueva, explorados);
      CreceTransitivo(viejos, antes, t.nodos);
      CreceEstable(p, antes, t.nodos, nodo);
      assert t.nodos[hijo].estado == acciones[k].1;
      var estadosFrontera := EstadosDe(t.nodos, nueva);
      if t.nodos[hijo].estado !in explorados && t.nodos[hijo].estado !in estadosFrontera {
        if EsObjetivo(p, t.nodos[hijo].estado) {
          r := Some(hijo);
          return;
        }
        AmpliaSigue(p, t.nodos, raiz, nueva, explorados, s, k, hijo);
        assert (nueva + [hijo])[..|frontera|] == nueva[..|frontera|];
        nueva := nueva + [hijo];
      } else {
        CubreSigue(p, explorados, estadosFrontera, s, k);
      }
      k := k + 1;
    }
    CubreCompleto(p, explorados, EstadosDe(t.nodos, nueva), s);
  }

  /**
   * One turn of the loop of `anchura`/`profundidad` on a non-empty frontier:
   * the first (FIFO) or last (LIFO) node is taken out, its state explored,
   * and unless it has no actions its children are generated.
   */
  method PasoCiega(p: Problema, t: Arbol, raiz: nat, frontera: seq<nat>, explorados: set<string>, lifo: bool)
    returns (nueva: seq<nat>, vistos: set<string>, r: Option<nat>)
    requires EnCurso(p, t.nodos, raiz, frontera, explorados) && frontera != []
    modifies t
    ensures Buenos(p, t.nodos) && Crece(old(t.nodos), t.nodos)
    ensures Estados(p) - vistos < Estados(p) - explorados
    ensures r.Some? ==> (r.value < |t.nodos| && EsObjetivo(p, t.nodos[r.value].estado)
      && raiz < |t.nodos| && t.nodos[raiz].estado == p.estadoInicial && t.nodos[raiz].padre.None? && t.nodos[raiz].coste == 0
      && Solucion(p, t.nodos, raiz, r.value) && !SinSolucion(p))
    ensures r.None? ==> EnCurso(p, t.nodos, raiz, nueva, vistos)
    ensures vistos == explorados + {old(t.nodos)[frontera[if lifo then |frontera| - 1 else 0]].estado}
    ensures r.None? ==>
              |frontera| - 1 <= |nueva|
              && nueva[..|frontera| - 1] == (if lifo then frontera[..|frontera| - 1] else frontera[1..])
  {
    var k := if lifo then |frontera| - 1 else 0;
    var nodo := frontera[k];
    ghost var fe := EstadosDe(t.nodos, frontera);
    RegistroSaca(p, t.nodos, raiz, frontera, explorados, k);
    SacaCubre(p, explorados, fe, k);
    nueva := frontera;
    if lifo {
      assert nueva[..k] + nueva[k + 1..] == nueva[..|nueva| - 1];
      nueva := nueva[..|nueva| - 1];
    } else {
      assert nueva[..k] + nueva[k + 1..] == nueva[1..];
      nueva := nueva[1..];
    }
    vistos := explorados + {t.nodos[nodo].estado};
    assert p.estadoInicial in vistos;
    r := None;
    if t.nodos[nodo].acciones == [] {
      assert NodoBueno(p, t.nodos, nodo);
      CubreCompleto(p, vistos, EstadosDe(t.nodos, nueva), t.nodos[nodo].estado);
      return;
    }
    ghost var antes := t.nodos;
    nueva, r := AmpliaCiega(p, t, raiz, nodo, nueva, vistos);
    if r.Some? {
      CreceEstable(p, antes, t.nodos, raiz);
      Encontrado(p, t.nodos, raiz, r.value);
    }
  }

  /**
   * `anchura` (with `lifo` false: `frontera.pop(0)`) and `profundidad` (with
   * `lifo` true: `frontera.pop()`): the root is returned when it is a goal,
   * otherwise a generated child that is a goal; None once the frontier is
   * empty, which happens exactly when no goal can be reached.
   */
  method Ciega(p: Problema, t: Arbol, lifo: bool) returns (r: Option<nat>)
    requires Buenos(p, t.nodos)
    modifies t
    ensures Buenos(p, t.nodos) && Crece(old(t.nodos), t.nodos) && |old(t.nodos)| < |t.nodos|
    ensures var raiz := t.nodos[|old(t.nodos)|];
      raiz.estado == p.estadoInicial && raiz.padre.None? && raiz.coste == 0
    ensures r.Some? ==> (r.value < |t.nodos| && EsObjetivo(p, t.nodos[r.value].estado)
                         && Solucion(p, t.nodos, |old(t.nodos)|, r.value))
    ensures r.None? <==> SinSolucion(p)
    ensures EsObjetivo(p, p.estadoInicial) ==> r == Some(|old(t.nodos)|)
  {
    var raiz := CreaNodoRaiz(p, t, None);
    if EsObjetivo(p, t.nodos[raiz].estado) {
      Encontrado(p, t.nodos, raiz, raiz);
      return Some(raiz);
    }
    var frontera := [raiz];
    var explorados: set<string> := {};
    Arranque(p, t.nodos, raiz);
    while true
      invariant Crece(old(t.nodos), t.nodos) && raiz == |old(t.nodos)|
      invariant EnCurso(p, t.nodos, raiz, frontera, explorados)
      decreases Estados(p) - explorados
    {
      if frontera == [] {
        Agotado(p, t.nodos, raiz, explorados);
        return None;
      }
      ghost var antes := t.nodos;
      var encontrado;
      frontera, explorados, encontrado := PasoCiega(p, t, raiz, frontera, explorados, lifo);
      CreceTransitivo(old(t.nodos), antes, t.nodos);
      if encontrado.Some? {
        return encontrado;
      }
    }
  }

  // ---------------------------------------------------------------------------
  // coste_uniforme
  // ---------------------------------------------------------------------------

  /**
   * The invariant of the loop of `coste_uniforme`: the bookkeeping holds,
   * every action of an explored state leads to an explored or a frontier
   * state, no explored state is a goal (goals are only checked when taken
   * out), the initial state is explored unless the frontier still holds
   * just the root, and the frontier is sorted by cost.
   */
  ghost predicate EnCursoUniforme(p: Problema, nodos: seq<Nodo>, raiz: nat, fr: seq<nat>, e: set<string>)
  {
    Registro(p, nodos, raiz, fr, e) && Cubre(p, e, EstadosDe(nodos, fr)) && SinObjetivo(p, e)
    && (p.estadoInicial in e || fr == [raiz]) && Ordenada(nodos, PorCoste, fr)
  }

  /**
   * The loop over the actions of `nodo` in `coste_uniforme`: each child is
   * built; one for a new state is appended, otherwise it replaces the
   * frontier node for its state when strictly cheaper; then the frontier is
   * sorted by cost.
   */
  method AmpliaUniforme(p: Problema, t: Arbol, raiz: nat, nodo: nat, frontera: seq<nat>, explorados: set<string>)
    returns (nueva: seq<nat>)
    requires Registro(p, t.nodos, raiz, frontera, explorados) && nodo < |t.nodos| && Raiz(t.nodos, nodo) == raiz
    requires t.nodos[nodo].estado in explorados && Ordenada(t.nodos, PorCoste, frontera)
    requires CubreSalvo(p, explorados, EstadosDe(t.nodos, frontera), t.nodos[nodo].estado, 0)
    modifies t
    ensures Buenos(p, t.nodos) && Crece(old(t.nodos), t.nodos)
    ensures Registro(p, t.nodos, raiz, nueva, explorados) && Cubre(p, explorados, EstadosDe(t.nodos, nueva))
    ensures Ordenada(t.nodos, PorCoste, nueva)
  {
    ghost var s := t.nodos[nodo].estado;
    ghost var viejos := t.nodos;
    var acciones := t.nodos[nodo].acciones;
    assert NodoBueno(p, t.nodos, nodo);
    nueva := frontera;
    var k := 0;
    while k < |acciones|
      invariant 0 <= k <= |acciones| && acciones == FilaDe(p, s)
      invariant nodo < |t.nodos| && t.nodos[nodo].estado == s && t.nodos[nodo].acciones == acciones
      invariant Registro(p, t.nodos, raiz, nueva, explorados)
      invariant Crece(viejos, t.nodos) && Raiz(t.nodos, nodo) == raiz
      invariant CubreSalvo(p, explorados, EstadosDe(t.nodos, nueva), s, k)
      invariant Ordenada(t.nodos, PorCoste, nueva)
    {
      ghost var antes := t.nodos;
      AccionDeNodo(p, t.nodos, nodo, k);
      var hijo := CreaNodoHijo(p, t, nodo, acciones[k].0);
      RegistroCrece(p, antes, t.nodos, raiz, nueva, explorados);
      CreceTransitivo(viejos, antes, t.nodos);
      CreceEstable(p, antes, t.nodos, nodo);
      assert t.nodos[hijo].estado == acciones[k].1;
      var estadosFrontera := EstadosDe(t.nodos, nueva);
      if t.nodos[hijo].estado !in explorados && t.nodos[hijo].estado !in estadosFrontera {
        AnadeSigue(p, t.nodos, raiz, nueva, explorados, s, k, hijo);
        nueva := nueva + [hijo];
      } else {
        RegistroReemplaza(p, t.nodos, raiz, nueva, explorados, MenorCoste, hijo);
        CubreSigue(p, explorados, estadosFrontera, s, k);
        nueva := Reemplaza(t.nodos, MenorCoste, nueva, hijo);
      }
      ghost var previa := nueva;
      nueva := Ordena(t.nodos, PorCoste, nueva);
      OrdenaOrdenada(t.nodos, PorCoste, previa);
      RegistroPermuta(p, t.nodos, raiz, previa, nueva, explorados);
      CubreMismos(p, explorados, EstadosDe(t.nodos, previa), EstadosDe(t.nodos, nueva), s, k + 1);
      k := k + 1;
    }
    CubreCompleto(p, explorados, EstadosDe(t.nodos, nueva), s);
  }

  /** A root for the initial state starts the loop of `coste_uniforme`. */
  lemma ArranqueUniforme(p: Problema, nodos: seq<Nodo>, raiz: nat)
    requires Buenos(p, nodos) && raiz < |nodos| && Raiz(nodos, raiz) == raiz
    requires nodos[raiz] == NodoNuevo(p.estadoInicial, None, FilaDe(p, p.estadoInicial), None)
    ensures EnCursoUniforme(p, nodos, raiz, [raiz], {})
  {
    assert EstadosDe(nodos, [raiz]) == [p.estadoInicial];
  }

  /** With an empty frontier the invariant of `coste_uniforme` shows no goal is reachable. */
  lemma AgotadoUniforme(p: Problema, nodos: seq<Nodo>, raiz: nat, e: set<string>)
    requires EnCursoUniforme(p, nodos, raiz, [], e)
    ensures SinSolucion(p)
    ensures raiz < |nodos| && nodos[raiz].estado == p.estadoInicial && nodos[raiz].padre.None? && nodos[raiz].coste == 0
  {
    assert EstadosDe(nodos, []) == [];
    CubreVacio(p, e);
    CerradoSinSolucion(p, e);
  }

  /**
   * Taking the first node, not a goal, out of the frontier of
   * `coste_uniforme` and exploring its state keeps the invariant, except for
   * the actions of that state.
   */
  lemma SacaUniforme(p: Problema, nodos: seq<Nodo>, raiz: nat, fr: seq<nat>, e: set<string>)
    requires EnCursoUniforme(p, nodos, raiz, fr, e) && fr != [] && !EsObjetivo(p, nodos[fr[0]].estado)
    ensures var x := nodos[fr[0]].estado;
      Registro(p, nodos, raiz, fr[1..], e + {x}) && x !in e && x in Estados(p) && Raiz(nodos, fr[0]) == raiz
      && CubreSalvo(p, e + {x}, EstadosDe(nodos, fr[1..]), x, 0) && SinObjetivo(p, e + {x})
      && p.estadoInicial in e + {x} && Ordenada(nodos, PorCoste, fr[1..])
  {
    var x := nodos[fr[0]].estado;
    var fe := EstadosDe(nodos, fr);
    assert fr[..0] + fr[1..] == fr[1..] && fe[..0] + fe[1..] == fe[1..];
    var resto := fr[..0] + fr[1..];
    RegistroSaca(p, nodos, raiz, fr, e, 0);
    assert Registro(p, nodos, raiz, resto, e + {x}) && resto == fr[1..];
    CubreSaca(p, e, fe, 0);
    assert fe[0] == x && EstadosDe(nodos, fr[1..]) == fe[1..];
    if fr == [raiz] {
      assert x == p.estadoInicial;
    }
    OrdenadaCola(nodos, PorCoste, fr);
  }

  /**
   * One turn of the loop of `coste_uniforme` on a non-empty frontier: the
   * first node, one of least cost, is taken out; it is returned when it is
   * a goal, otherwise its state is explored and its children are considered.
   */
  method PasoUniforme(p: Problema, t: Arbol, raiz: nat, frontera: seq<nat>, explorados: set<string>)
    returns (nodo: nat, nueva: seq<nat>, vistos: set<string>, r: Option<nat>)
    requires EnCursoUniforme(p, t.nodos, raiz, frontera, explorados) && frontera != []
    modifies t
    ensures nodo == frontera[0] && forall k :: 0 <= k < |frontera| ==> old(t.nodos)[nodo].coste <= old(t.nodos)[frontera[k]].coste
    ensures Buenos(p, t.nodos) && Crece(old(t.nodos), t.nodos)
    ensures r.Some? ==> (r.value == nodo && r.value < |t.nodos| && EsObjetivo(p, t.nodos[r.value].estado)
      && raiz < |t.nodos| && t.nodos[raiz].estado == p.estadoInicial && t.nodos[raiz].padre.None? && t.nodos[raiz].coste == 0
      && Solucion(p, t.nodos, raiz, r.value) && !SinSolucion(p))
    ensures r.None? ==> Estados(p) - vistos < Estados(p) - explorados && EnCursoUniforme(p, t.nodos, raiz, nueva, vistos)
  {
    nodo := frontera[0];
    PrimeroMinimo(t.nodos, frontera);
    nueva := frontera[1..];
    vistos := explorados;
    r := None;
    if EsObjetivo(p, t.nodos[nodo].estado) {
      assert Registro(p, t.nodos, raiz, frontera, explorados) && Raiz(t.nodos, frontera[0]) == raiz;
      Encontrado(p, t.nodos, raiz, nodo);
      r := Some(nodo);
      return;
    }
    SacaUniforme(p, t.nodos, raiz, frontera, explorados);
    vistos := explorados + {t.nodos[nodo].estado};
    if t.nodos[nodo].acciones == [] {
      assert NodoBueno(p, t.nodos, nodo);
      CubreCompleto(p, vistos, EstadosDe(t.nodos, nueva), t.nodos[nodo].estado);
      return;
    }
    nueva := AmpliaUniforme(p, t, raiz, nodo, nueva, vistos);
  }

  /**
   * `coste_uniforme`: nodes leave the frontier cheapest first and are checked
   * for the goal then; a returned node is a goal on a chain from the new
   * root, and None comes back exactly when no goal can be reached.
   */
  method CosteUniforme(p: Problema, t: Arbol) returns (r: Option<nat>)
    requires Buenos(p, t.nodos)
    modifies t
    ensures Buenos(p, t.nodos) && Crece(old(t.nodos), t.nodos) && |old(t.nodos)| < |t.nodos|
    ensures var raiz := t.nodos[|old(t.nodos)|];
      raiz.estado == p.estadoInicial && raiz.padre.None? && raiz.coste == 0
    ensures r.Some? ==> (r.value < |t.nodos| && EsObjetivo(p, t.nodos[r.value].estado)
                         && Solucion(p, t.nodos, |old(t.nodos)|, r.value))
    ensures r.None? <==> SinSolucion(p)
    ensures EsObjetivo(p, p.estadoInicial) ==> r == Some(|old(t.nodos)|)
  {
    var raiz := CreaNodoRaiz(p, t, None);
    var frontera := [raiz];
    var explorados: set<string> := {};
    ArranqueUniforme(p, t.nodos, raiz);
    while true
      invariant Crece(old(t.nodos), t.nodos) && raiz == |old(t.nodos)|
      invariant EnCursoUniforme(p, t.nodos, raiz, frontera, explorados)
      decreases Estados(p) - explorados
    {
      if frontera == [] {
        AgotadoUniforme(p, t.nodos, raiz, explorados);
        return None;
      }
      ghost var antes := t.nodos;
      var nodo, encontrado;
      nodo, frontera, explorados, encontrado := PasoUniforme(p, t, raiz, frontera, explorados);
      CreceTransitivo(old(t.nodos), antes, t.nodos);
      if encontrado.Some? {
        return encontrado;
      }
    }
  }

  // ---------------------------------------------------------------------------
  // profundidad_recursiva / __bpp_recursiva / profundidad_iterativa
  // ---------------------------------------------------------------------------

  /**
   * Whether `__bpp_recursiva` succeeds from a node for state `s` with
   * `limite` levels left and the states `e` of the node's ancestors
   * explored: `s` is a goal, or the limit is not reached and the search
   * succeeds from some child for a state not yet explored.
   */
  ghost function ExitoBpp(p: Problema, s: string, limite: int, e: set<string>): bool
    requires s in Estados(p) && s !in e
    decreases Estados(p) - e, 1, 0
  {
    EsObjetivo(p, s) || (limite != 0 && ExitoHijos(p, s, 0, limite - 1, e))
  }

  /** Whether the search succeeds from a child of `s` reached by the `k`-th action or a later one. */
  ghost function ExitoHijos(p: Problema, s: string, k: nat, limite: int, e: set<string>): bool
    requires s in Estados(p) && s !in e
    decreases Estados(p) - e, 0, |FilaDe(p, s)| - k
  {
    var fila := FilaDe(p, s);
    if k >= |fila| then false
    else
      (fila[k].1 !in e + {s} && ExitoBpp(p, fila[k].1, limite, e + {s}))
      || ExitoHijos(p, s, k + 1, limite, e)
  }

  /** When the `k`-th child fails, success rests on the later children. */
  lemma ExitoSigue(p: Problema, s: string, k: nat, limite: int, e: set<string>)
    requires s in Estados(p) && s !in e && k < |FilaDe(p, s)|
    requires !(FilaDe(p, s)[k].1 !in e + {s} && ExitoBpp(p, FilaDe(p, s)[k].1, limite, e + {s}))
    ensures ExitoHijos(p, s, k, limite, e) == ExitoHijos(p, s, k + 1, limite, e)
  {
  }

  /** A child for a state off its parent's chain extends the chain without repeating a state. */
  lemma CadenaHijo(p: Problema, nodos: seq<Nodo>, nodo: nat, hijo: nat, e: set<string>)
    requires Buenos(p, nodos) && nodo < hijo < |nodos| && nodos[hijo].padre == Some(nodo)
    requires Distintos(Cadena(nodos, nodo)) && forall k :: 0 <= k < Nivel(nodos, nodo) ==> Cadena(nodos, nodo)[k] in e
    requires nodos[hijo].estado !in e + {nodos[nodo].estado}
    ensures Cadena(nodos, hijo) == Cadena(nodos, nodo) + [nodos[hijo].estado] && Nivel(nodos, hijo) == Nivel(nodos, nodo) + 1
    ensures Distintos(Cadena(nodos, hijo)) && Raiz(nodos, hijo) == Raiz(nodos, nodo)
    ensures forall k :: 0 <= k < Nivel(nodos, hijo) ==> Cadena(nodos, hijo)[k] in e + {nodos[nodo].estado}
  {
    var c := Cadena(nodos, nodo);
    var d := Cadena(nodos, hijo);
    assert d == c + [nodos[hijo].estado];
    forall k | 0 <= k < |c| ensures c[k] != nodos[hijo].estado {
      if k < |c| - 1 {
        assert c[k] in e;
      }
    }
  }

  /**
   * `__bpp_recursiva`: it succeeds exactly as `ExitoBpp` says; a node it
   * returns is a goal in the same tree, with no state repeated on its
   * chain and, for a limit that is not negative, at most `limite` levels
   * below the starting node.
   */
  method BppRecursiva(p: Problema, t: Arbol, nodo: nat, limite: int, explorados: set<string>) returns (r: Option<nat>)
    requires Buenos(p, t.nodos) && nodo < |t.nodos|
    requires t.nodos[nodo].estado !in explorados && Distintos(Cadena(t.nodos, nodo))
    requires forall k :: 0 <= k < Nivel(t.nodos, nodo) ==> Cadena(t.nodos, nodo)[k] in explorados
    modifies t
    ensures Buenos(p, t.nodos) && Crece(old(t.nodos), t.nodos)
    ensures old(t.nodos)[nodo].estado in Estados(p)
    ensures r.Some? <==> ExitoBpp(p, old(t.nodos)[nodo].estado, limite, explorados)
    ensures r.Some? ==> (r.value < |t.nodos| && EsObjetivo(p, t.nodos[r.value].estado)
      && Raiz(t.nodos, r.value) == Raiz(old(t.nodos), nodo) && Distintos(Cadena(t.nodos, r.value))
      && (limite >= 0 ==> Nivel(t.nodos, r.value) <= Nivel(old(t.nodos), nodo) + limite))
    ensures EsObjetivo(p, old(t.nodos)[nodo].estado) ==> r == Some(nodo)
    decreases Estados(p) - explorados, 2
  {
    var s := t.nodos[nodo].estado;
    assert NodoBueno(p, t.nodos, nodo);
    if EsObjetivo(p, s) {
      return Some(nodo);
    }
    if limite == 0 {
      return None;
    }
    r := BppHijos(p, t, nodo, limite, explorados);
  }

  /**
   * The loop of `__bpp_recursiva` over the node's actions: the first child
   * from which the search succeeds ends it.
   */
  method BppHijos(p: Problema, t: Arbol, nodo: nat, limite: int, explorados: set<string>) returns (r: Option<nat>)
    requires Buenos(p, t.nodos) && nodo < |t.nodos|
    requires t.nodos[nodo].estado !in explorados && Distintos(Cadena(t.nodos, nodo))
    requires forall k :: 0 <= k < Nivel(t.nodos, nodo) ==> Cadena(t.nodos, nodo)[k] in explorados
    modifies t
    ensures Buenos(p, t.nodos) && Crece(old(t.nodos), t.nodos)
    ensures old(t.nodos)[nodo].estado in Estados(p)
    ensures r.Some? <==> ExitoHijos(p, old(t.nodos)[nodo].estado, 0, limite - 1, explorados)
    ensures r.Some? ==> (r.value < |t.nodos| && EsObjetivo(p, t.nodos[r.value].estado)
      && Raiz(t.nodos, r.value) == Raiz(old(t.nodos), nodo) && Distintos(Cadena(t.nodos, r.value))
      && (limite >= 1 ==> Nivel(t.nodos, r.value) <= Nivel(old(t.nodos), nodo) + limite))
    decreases Estados(p) - explorados, 1
  {
    var s := t.nodos[nodo].estado;
    assert NodoBueno(p, t.nodos, nodo);
    var acciones := t.nodos[nodo].acciones;
    ghost var viejos := t.nodos;
    var k := 0;
    while k < |acciones|
      invariant 0 <= k <= |acciones| && acciones == FilaDe(p, s)
      invariant Buenos(p, t.nodos) && Crece(viejos, t.nodos)
      invariant ExitoHijos(p, s, 0, limite - 1, explorados) == ExitoHijos(p, s, k, limite - 1, explorados)
    {
      ghost var antes := t.nodos;
      CreceEstable(p, viejos, t.nodos, nodo);
      assert t.nodos[nodo] == viejos[nodo].(hijos := t.nodos[nodo].hijos);
      var res := BppHijo(p, t, nodo, k, limite, explorados);
      CreceTransitivo(viejos, antes, t.nodos);
      if res.Some? {
        return res;
      }
      ExitoSigue(p, s, k, limite - 1, explorados);
      k := k + 1;
    }
    return None;
  }

  /**
   * One turn of the loop of `__bpp_recursiva`: the child for the `k`-th
   * action is built and, when its state is not explored, searched from with
   * one level less and the explored states extended by the node's state.
   */
  method BppHijo(p: Problema, t: Arbol, nodo: nat, k: nat, limite: int, explorados: set<string>) returns (r: Option<nat>)
    requires Buenos(p, t.nodos) && nodo < |t.nodos| && k < |t.nodos[nodo].acciones|
    requires t.nodos[nodo].estado !in explorados && Distintos(Cadena(t.nodos, nodo))
    requires forall j :: 0 <= j < Nivel(t.nodos, nodo) ==> Cadena(t.nodos, nodo)[j] in explorados
    modifies t
    ensures Buenos(p, t.nodos) && Crece(old(t.nodos), t.nodos)
    ensures var s := old(t.nodos)[nodo].estado;
      var y := old(t.nodos)[nodo].acciones[k].1;
      s in Estados(p) && y in Estados(p) && old(t.nodos)[nodo].acciones == FilaDe(p, s)
      && (r.Some? <==> y !in explorados + {s} && ExitoBpp(p, y, limite - 1, explorados + {s}))
    ensures r.Some? ==> (r.value < |t.nodos| && EsObjetivo(p, t.nodos[r.value].estado)
      && Raiz(t.nodos, r.value) == Raiz(old(t.nodos), nodo) && Distintos(Cadena(t.nodos, r.value))
      && (limite >= 1 ==> Nivel(t.nodos, r.value) <= Nivel(old(t.nodos), nodo) + limite))
    decreases Estados(p) - explorados, 0
  {
    var s := t.nodos[nodo].estado;
    var vistos := explorados + {s};
    AccionDeNodo(p, t.nodos, nodo, k);
    assert NodoBueno(p, t.nodos, nodo);
    var hijo := CreaNodoHijo(p, t, nodo, t.nodos[nodo].acciones[k].0);
    assert t.nodos[hijo].estado == old(t.nodos)[nodo].acciones[k].1 && t.nodos[hijo].padre == Some(nodo);
    CreceEstable(p, old(t.nodos), t.nodos, nodo);
    r := None;
    if t.nodos[hijo].estado !in vistos {
      CadenaHijo(p, t.nodos, nodo, hijo, explorados);
      ghost var medio := t.nodos;
      r := BppRecursiva(p, t, hijo, limite - 1, vistos);
      CreceTransitivo(old(t.nodos), medio, t.nodos);
      CreceEstable(p, medio, t.nodos, nodo);
      CreceEstable(p, medio, t.nodos, hijo);
    }
  }

  // ---------------------------------------------------------------------------
  // What the recursive depth-first search finds
  // ---------------------------------------------------------------------------

  /** A walk that repeats no state, avoids `e` and ends at a goal. */
  ghost predicate RutaLibre(p: Problema, ss: seq<string>, e: set<string>)
  {
    ss != [] && Camino(p, ss) && Distintos(ss) && (forall i :: 0 <= i < |ss| ==> ss[i] !in e)
    && EsObjetivo(p, ss[|ss| - 1])
  }

  /** Success from a later child carries back to an earlier position of the row. */
  lemma {:induction false} ExitoDesde(p: Problema, s: string, j: nat, k: nat, limite: int, e: set<string>)
    requires s in Estados(p) && s !in e && j <= k < |FilaDe(p, s)|
    requires FilaDe(p, s)[k].1 !in e + {s} && ExitoBpp(p, FilaDe(p, s)[k].1, limite, e + {s})
    ensures ExitoHijos(p, s, j, limite, e)
    decreases k - j
  {
    if j < k {
      ExitoDesde(p, s, j + 1, k, limite, e);
    }
  }

  /** A walk from a state outside `e` to a goal stays a free walk with one more state in front. */
  lemma Antepone(p: Problema, s: string, resto: seq<string>, e: set<string>)
    requires RutaLibre(p, resto, e + {s}) && Paso(p, s, resto[0]) && s !in e
    ensures RutaLibre(p, [s] + resto, e)
  {
    var ss := [s] + resto;
    assert forall i :: 0 <= i < |resto| ==> ss[i + 1] == resto[i];
    forall i, j | 0 <= i < j < |ss| ensures ss[i] != ss[j] {
      if i > 0 {
        assert resto[i - 1] != resto[j - 1];
      } else {
        assert resto[j - 1] !in e + {s};
      }
    }
    forall i | 0 <= i < |ss| - 1 ensures Paso(p, ss[i], ss[i + 1]) {
      if i > 0 {
        assert Paso(p, resto[i - 1], resto[i]);
      }
    }
  }

  /** Dropping the first state of a free walk leaves a free walk that also avoids that state. */
  lemma Cola(p: Problema, ss: seq<string>, e: set<string>)
    requires RutaLibre(p, ss, e) && |ss| >= 2
    ensures RutaLibre(p, ss[1..], e + {ss[0]}) && Paso(p, ss[0], ss[1])
  {
    var resto := ss[1..];
    assert forall i :: 0 <= i < |resto| ==> resto[i] == ss[i + 1];
    forall i | 0 <= i < |resto| - 1 ensures Paso(p, resto[i], resto[i + 1]) {
      assert Paso(p, ss[i + 1], ss[i + 2]);
    }
  }

  /** Every cycle-free walk to a goal within the limit is found. */
  lemma {:induction false} ExitoCompleto(p: Problema, ss: seq<string>, limite: int, e: set<string>)
    requires RutaLibre(p, ss, e) && ss[0] in Estados(p) && (limite < 0 || |ss| - 1 <= limite)
    ensures ExitoBpp(p, ss[0], limite, e)
    decreases |ss|
  {
    var s := ss[0];
    if !EsObjetivo(p, s) {
      assert |ss| >= 2;
      Cola(p, ss, e);
      var k :| 0 <= k < |FilaDe(p, s)| && FilaDe(p, s)[k].1 == ss[1];
      ExitoCompleto(p, ss[1..], limite - 1, e + {s});
      ExitoDesde(p, s, 0, k, limite - 1, e);
    }
  }

  /** A success shows a cycle-free walk to a goal within the limit. */
  lemma {:induction false} ExitoSano(p: Problema, s: string, limite: int, e: set<string>) returns (ss: seq<string>)
    requires s in Estados(p) && s !in e && ExitoBpp(p, s, limite, e)
    ensures RutaLibre(p, ss, e) && ss[0] == s && (limite < 0 || |ss| - 1 <= limite)
    decreases Estados(p) - e, 1, 0
  {
    if EsObjetivo(p, s) {
      ss := [s];
    } else {
      ss := HijosSano(p, s, 0, limite - 1, e);
    }
  }

  /** A success from the children of `s` shows a walk from `s` one step longer than the children's limit. */
  lemma {:induction false} HijosSano(p: Problema, s: string, k: nat, limite: int, e: set<string>) returns (ss: seq<string>)
    requires s in Estados(p) && s !in e && ExitoHijos(p, s, k, limite, e)
    ensures RutaLibre(p, ss, e) && ss[0] == s && (limite < 0 || |ss| - 2 <= limite)
    decreases Estados(p) - e, 0, |FilaDe(p, s)| - k
  {
    var fila := FilaDe(p, s);
    assert k < |fila|;
    var y := fila[k].1;
    if y !in e + {s} && ExitoBpp(p, y, limite, e + {s}) {
      var resto := ExitoSano(p, y, limite, e + {s});
      assert Paso(p, s, resto[0]);
      Antepone(p, s, resto, e);
      ss := [s] + resto;
    } else {
      ss := HijosSano(p, s, k + 1, limite, e);
    }
  }

  /** The recursive search succeeds exactly when a cycle-free walk to a goal fits the limit. */
  lemma ExitoRuta(p: Problema, s: string, limite: int, e: set<string>)
    requires s in Estados(p) && s !in e
    ensures ExitoBpp(p, s, limite, e) <==>
      exists ss :: RutaLibre(p, ss, e) && ss[0] == s && (limite < 0 || |ss| - 1 <= limite)
  {
    if ExitoBpp(p, s, limite, e) {
      var ss := ExitoSano(p, s, limite, e);
    }
    forall ss | RutaLibre(p, ss, e) && ss[0] == s && (limite < 0 || |ss| - 1 <= limite)
      ensures ExitoBpp(p, s, limite, e)
    {
      ExitoCompleto(p, ss, limite, e);
    }
  }

  /** A walk with a repeated state shortens to one without. */
  lemma {:induction false} Acorta(p: Problema, ss: seq<string>) returns (tt: seq<string>)
    requires Camino(p, ss) && ss != []
    ensures Camino(p, tt) && Distintos(tt) && tt != [] && tt[0] == ss[0] && tt[|tt| - 1] == ss[|ss| - 1]
    decreases |ss|
  {
    if Distintos(ss) {
      return ss;
    }
    var i, j :| 0 <= i < j < |ss| && ss[i] == ss[j];
    Salta(p, ss, i, j);
    tt := Acorta(p, ss[..i] + ss[j..]);
  }

  /** Cutting out the loop between two visits of the same state leaves a walk with the same ends. */
  lemma Salta(p: Problema, ss: seq<string>, i: nat, j: nat)
    requires Camino(p, ss) && i < j < |ss| && ss[i] == ss[j]
    ensures var uu := ss[..i] + ss[j..];
      Camino(p, uu) && |uu| < |ss| && uu != [] && uu[0] == ss[0] && uu[|uu| - 1] == ss[|ss| - 1]
  {
    var uu := ss[..i] + ss[j..];
    assert forall m :: 0 <= m < i ==> uu[m] == ss[m];
    assert forall m :: i <= m < |uu| ==> uu[m] == ss[m - i + j];
    forall m | 0 <= m < |uu| - 1 ensures Paso(p, uu[m], uu[m + 1]) {
      if m + 1 <= i {
        assert Paso(p, ss[m], ss[m + 1]);
      } else {
        assert Paso(p, ss[m - i + j], ss[m - i + j + 1]);
      }
    }
  }

  /** A walk from the initial state meeting a goal gives a cycle-free walk to a goal. */
  lemma RutaDeSolucion(p: Problema, ss: seq<string>, i: nat) returns (tt: seq<string>)
    requires Camino(p, ss) && i < |ss| && EsObjetivo(p, ss[i])
    ensures RutaLibre(p, tt, {}) && tt[0] == ss[0]
  {
    var pre := ss[..i + 1];
    assert forall m :: 0 <= m < |pre| ==> pre[m] == ss[m];
    tt := Acorta(p, pre);
  }

  // ---------------------------------------------------------------------------
  // profundidad_recursiva / profundidad_iterativa
  // ---------------------------------------------------------------------------

  /** The limit `profundidad_recursiva` takes when none is given. */
  const LimitePorDefecto := 99999

  /**
   * `profundidad_recursiva`: the recursive search from a new root for the
   * initial state with nothing explored. It succeeds exactly when some
   * cycle-free walk to a goal has at most `limite` steps (any length when the
   * limit is negative), returning a goal node on such a walk; with no
   * limit it is complete.
   */
  method ProfundidadRecursiva(p: Problema, t: Arbol, limite: int) returns (r: Option<nat>)
    requires Buenos(p, t.nodos)
    modifies t
    ensures Buenos(p, t.nodos) && Crece(old(t.nodos), t.nodos) && |old(t.nodos)| < |t.nodos|
    ensures var raiz := t.nodos[|old(t.nodos)|];
      raiz.estado == p.estadoInicial && raiz.padre.None? && raiz.coste == 0
    ensures r.Some? <==> exists ss :: RutaLibre(p, ss, {}) && ss[0] == p.estadoInicial && (limite < 0 || |ss| - 1 <= limite)
    ensures r.Some? ==> (r.value < |t.nodos| && EsObjetivo(p, t.nodos[r.value].estado)
      && Solucion(p, t.nodos, |old(t.nodos)|, r.value) && Distintos(Cadena(t.nodos, r.value))
      && (limite >= 0 ==> Nivel(t.nodos, r.value) <= limite))
    ensures EsObjetivo(p, p.estadoInicial) ==> r == Some(|old(t.nodos)|)
    ensures limite < 0 ==> (r.None? <==> SinSolucion(p))
  {
    var raiz := CreaNodoRaiz(p, t, None);
    assert Cadena(t.nodos, raiz) == [p.estadoInicial];
    ghost var inicio := t.nodos;
    r := BppRecursiva(p, t, raiz, limite, {});
    CreceTransitivo(old(t.nodos), inicio, t.nodos);
    ExitoRuta(p, p.estadoInicial, limite, {});
    if r.Some? {
      Encontrado(p, t.nodos, raiz, r.value);
    } else if limite < 0 {
      forall ss | Camino(p, ss) && ss != [] && ss[0] == p.estadoInicial
        ensures forall i :: 0 <= i < |ss| ==> !EsObjetivo(p, ss[i])
      {
        forall i | 0 <= i < |ss| ensures !EsObjetivo(p, ss[i]) {
          if EsObjetivo(p, ss[i]) {
            var tt := RutaDeSolucion(p, ss, i);
            assert false;
          }
        }
      }
    }
  }

  /**
   * `profundidad_iterativa`: without a limit, the recursive search with its
   * default limit; otherwise the recursive search with limits 1, 2, ...,
   * `limite`, each from a new root, until one succeeds. With a limit the
   * goal returned is at the depth of a shortest cycle-free walk to a goal.
   */
  method ProfundidadIterativa(p: Problema, t: Arbol, limite: Option<int>) returns (r: Option<nat>)
    requires Buenos(p, t.nodos)
    modifies t
    ensures Buenos(p, t.nodos) && Crece(old(t.nodos), t.nodos)
    ensures r.Some? <==> exists ss :: (RutaLibre(p, ss, {}) && ss[0] == p.estadoInicial
      && (if limite.Some? then 1 <= limite.value && |ss| - 1 <= limite.value else |ss| - 1 <= LimitePorDefecto))
    ensures r.Some? ==> (r.value < |t.nodos| && EsObjetivo(p, t.nodos[r.value].estado)
      && t.nodos[Raiz(t.nodos, r.value)].estado == p.estadoInicial && t.nodos[Raiz(t.nodos, r.value)].coste == 0
      && Solucion(p, t.nodos, Raiz(t.nodos, r.value), r.value) && Distintos(Cadena(t.nodos, r.value)))
    ensures r.Some? && limite.Some? ==>
      forall ss :: RutaLibre(p, ss, {}) && ss[0] == p.estadoInicial ==> Nivel(t.nodos, r.value) <= |ss| - 1
  {
    if limite.None? {
      r := ProfundidadRecursiva(p, t, LimitePorDefecto);
      return;
    }
    var i := 1;
    while i <= limite.value
      invariant 1 <= i && (i <= limite.value + 1 || i == 1)
      invariant Buenos(p, t.nodos) && Crece(old(t.nodos), t.nodos)
      invariant i == 1 || forall ss :: RutaLibre(p, ss, {}) && ss[0] == p.estadoInicial ==> |ss| - 1 >= i
      decreases limite.value - i
    {
      ghost var antes := t.nodos;
      r := ProfundidadRecursiva(p, t, i);
      CreceTransitivo(old(t.nodos), antes, t.nodos);
      if r.Some? {
        if !EsObjetivo(p, p.estadoInicial) {
          forall ss | RutaLibre(p, ss, {}) && ss[0] == p.estadoInicial ensures |ss| - 1 >= 1 {
            assert |ss| != 1;
          }
        }
        return;
      }
      i := i + 1;
    }
    r := None;
  }

  // ---------------------------------------------------------------------------
  // __coste_recursivo / profundidad_iterativa_coste
  // ---------------------------------------------------------------------------

  /**
   * The (state, cost) pairs of the goal nodes `__coste_recursivo` collects,
   * in order, from a node for `s` of cost `c` with `limite` left: nothing
   * once the limit is used up, the node itself when it is a goal, otherwise
   * what the children for unexplored states collect, each with the cost of
   * its action taken off the limit.
   */
  ghost function SolucionesCoste(p: Problema, s: string, c: int, limite: int, e: set<string>): (r: seq<(string, int)>)
    requires s in Estados(p) && s !in e
    decreases Estados(p) - e, 2, 0
  {
    if limite <= 0 then []
    else if EsObjetivo(p, s) then [(s, c)]
    else SolucionesHijos(p, s, c, 0, limite, e)
  }

  /** What the children of `s` for the `k`-th action and the later ones collect. */
  ghost function SolucionesHijos(p: Problema, s: string, c: int, k: nat, limite: int, e: set<string>): (r: seq<(string, int)>)
    requires s in Estados(p) && s !in e
    decreases Estados(p) - e, 1, |FilaDe(p, s)| - k
  {
    if k >= |FilaDe(p, s)| then []
    else
      SolucionesDe(p, s, c, k, limite, e) + SolucionesHijos(p, s, c, k + 1, limite, e)
  }

  /** What the child of `s` for the `k`-th action collects: nothing when its state is explored or `s`. */
  ghost function SolucionesDe(p: Problema, s: string, c: int, k: nat, limite: int, e: set<string>): (r: seq<(string, int)>)
    requires s in Estados(p) && s !in e && k < |FilaDe(p, s)|
    decreases Estados(p) - e, 0, 0
  {
    var y := FilaDe(p, s)[k];
    if y.1 in e + {s} then []
    else
      var a := CosteAccion(p, s, y.0);
      SolucionesCoste(p, y.1, c + a, limite - a, e + {s})
  }

  /** Everything the search from `s` collects is a goal of cost under `c + limite`. */
  lemma {:induction false} EnCoste(p: Problema, s: string, c: int, limite: int, e: set<string>, x: (string, int))
    requires s in Estados(p) && s !in e && x in SolucionesCoste(p, s, c, limite, e)
    ensures EsObjetivo(p, x.0) && x.1 < c + limite
    decreases Estados(p) - e, 2, 0
  {
    if limite > 0 && !EsObjetivo(p, s) {
      EnHijos(p, s, c, 0, limite, e, x);
    }
  }

  lemma {:induction false} EnHijos(p: Problema, s: string, c: int, k: nat, limite: int, e: set<string>, x: (string, int))
    requires s in Estados(p) && s !in e && x in SolucionesHijos(p, s, c, k, limite, e)
    ensures EsObjetivo(p, x.0) && x.1 < c + limite
    decreases Estados(p) - e, 1, |FilaDe(p, s)| - k
  {
    if k < |FilaDe(p, s)| {
      if x in SolucionesDe(p, s, c, k, limite, e) {
        DeHijo(p, s, c, k, limite, e);
        EnDe(p, s, c, k, limite, e, x);
      } else {
        EnHijos(p, s, c, k + 1, limite, e, x);
      }
    }
  }

  lemma {:induction false} EnDe(p: Problema, s: string, c: int, k: nat, limite: int, e: set<string>, x: (string, int))
    requires s in Estados(p) && s !in e && k < |FilaDe(p, s)|
    requires var y := FilaDe(p, s)[k];
      var a := CosteAccion(p, s, y.0);
      y.1 in Estados(p) && y.1 !in e + {s} && x in SolucionesCoste(p, y.1, c + a, limite - a, e + {s})
    ensures EsObjetivo(p, x.0) && x.1 < c + limite
    decreases Estados(p) - e, 0, 0
  {
    var y := FilaDe(p, s)[k];
    var a := CosteAccion(p, s, y.0);
    EnCoste(p, y.1, c + a, limite - a, e + {s}, x);
  }

  /** What the `k`-th child collects: nothing for an explored state, else the search from its state. */
  lemma DeHijo(p: Problema, s: string, c: int, k: nat, limite: int, e: set<string>)
    requires s in Estados(p) && s !in e && k < |FilaDe(p, s)|
    ensures var y := FilaDe(p, s)[k];
      var a := CosteAccion(p, s, y.0);
      y.1 in Estados(p)
      && (y.1 in e + {s} ==> SolucionesDe(p, s, c, k, limite, e) == [])
      && (y.1 !in e + {s} ==> SolucionesDe(p, s, c, k, limite, e) == SolucionesCoste(p, y.1, c + a, limite - a, e + {s}))
  {
  }

  /** What the search from the `k`-th child's node collects is what that child collects. */
  lemma DeHijoHallado(p: Problema, s: string, c: int, k: nat, limite: int, e: set<string>,
                      estado: string, coste: int, a: int, xs: seq<(string, int)>)
    requires s in Estados(p) && s !in e && k < |FilaDe(p, s)|
    requires FilaDe(p, s)[k].1 == estado && estado !in e + {s}
    requires a == CosteAccion(p, s, FilaDe(p, s)[k].0) && coste == c + a
    requires estado in Estados(p) && xs == SolucionesCoste(p, estado, coste, limite - a, e + {s})
    ensures xs == SolucionesDe(p, s, c, k, limite, e)
  {
    DeHijo(p, s, c, k, limite, e);
  }

  /** The children's collection is the `k`-th child's followed by the later ones'. */
  lemma HijosPaso(p: Problema, s: string, c: int, k: nat, limite: int, e: set<string>)
    requires s in Estados(p) && s !in e && k < |FilaDe(p, s)|
    ensures SolucionesHijos(p, s, c, k, limite, e) == SolucionesDe(p, s, c, k, limite, e) + SolucionesHijos(p, s, c, k + 1, limite, e)
  {
  }

  /** The (state, cost) pairs of the nodes `xs`. */
  function Hallazgos(nodos: seq<Nodo>, xs: seq<nat>): (r: seq<(string, int)>)
    requires EnRango(nodos, xs)
    ensures |r| == |xs| && forall i :: 0 <= i < |xs| ==> r[i] == (nodos[xs[i]].estado, nodos[xs[i]].coste)
  {
    seq(|xs|, i requires 0 <= i < |xs| => (nodos[xs[i]].estado, nodos[xs[i]].coste))
  }

  lemma Asocia<T>(a: seq<T>, b: seq<T>, c: seq<T>)
    ensures (a + b) + c == a + (b + c)
  {
  }

  /** Growing the tree keeps the pairs of old nodes; the pairs of two runs of nodes join. */
  lemma HallazgosJunta(viejos: seq<Nodo>, nuevos: seq<Nodo>, xs: seq<nat>, ys: seq<nat>)
    requires Crece(viejos, nuevos) && EnRango(viejos, xs) && EnRango(nuevos, ys)
    ensures EnRango(nuevos, xs + ys) && Hallazgos(nuevos, xs + ys) == Hallazgos(viejos, xs) + Hallazgos(nuevos, ys)
  {
    var zs := xs + ys;
    forall i | 0 <= i < |zs| ensures zs[i] < |nuevos| {
      if i >= |xs| { assert zs[i] == ys[i - |xs|]; }
    }
    forall i | 0 <= i < |xs| ensures nuevos[xs[i]].estado == viejos[xs[i]].estado && nuevos[xs[i]].coste == viejos[xs[i]].coste {
      assert nuevos[xs[i]] == viejos[xs[i]].(hijos := nuevos[xs[i]].hijos);
    }
  }

  /** Growing the tree keeps the roots of old nodes, so two runs of nodes under one root join. */
  lemma RaicesJunta(p: Problema, viejos: seq<Nodo>, nuevos: seq<Nodo>, xs: seq<nat>, ys: seq<nat>, raiz: nat)
    requires Arena(viejos) && Arena(nuevos) && Crece(viejos, nuevos) && EnRango(viejos, xs) && EnRango(nuevos, ys)
    requires forall i :: 0 <= i < |xs| ==> Raiz(viejos, xs[i]) == raiz
    requires forall i :: 0 <= i < |ys| ==> Raiz(nuevos, ys[i]) == raiz
    ensures EnRango(nuevos, xs + ys) && forall i :: 0 <= i < |xs + ys| ==> Raiz(nuevos, (xs + ys)[i]) == raiz
  {
    var zs := xs + ys;
    forall i | 0 <= i < |zs| ensures zs[i] < |nuevos| && Raiz(nuevos, zs[i]) == raiz {
      if i >= |xs| {
        assert zs[i] == ys[i - |xs|];
      } else {
        assert zs[i] == xs[i];
        CreceEstable(p, viejos, nuevos, xs[i]);
      }
    }
  }

  /**
   * `__coste_recursivo`: the goal nodes it appends to `soluciones`, returned
   * in the order they are appended; they are exactly the pairs of
   * `SolucionesCoste` and all hang below `nodo`'s root.
   */
  method CosteRecursivo(p: Problema, t: Arbol, nodo: nat, limite: int, explorados: set<string>) returns (halladas: seq<nat>)
    requires Buenos(p, t.nodos) && nodo < |t.nodos| && t.nodos[nodo].estado !in explorados
    modifies t
    ensures Buenos(p, t.nodos) && Crece(old(t.nodos), t.nodos) && old(t.nodos)[nodo].estado in Estados(p)
    ensures EnRango(t.nodos, halladas)
    ensures Hallazgos(t.nodos, halladas)
      == SolucionesCoste(p, old(t.nodos)[nodo].estado, old(t.nodos)[nodo].coste, limite, explorados)
    ensures forall i :: 0 <= i < |halladas| ==> Raiz(t.nodos, halladas[i]) == Raiz(old(t.nodos), nodo)
    decreases Estados(p) - explorados, 2
  {
    assert NodoBueno(p, t.nodos, nodo);
    if limite <= 0 {
      return [];
    }
    if EsObjetivo(p, t.nodos[nodo].estado) {
      return [nodo];
    }
    halladas := CosteHijos(p, t, nodo, limite, explorados);
  }

  /**
   * The invariant of the loop of `__coste_recursivo` before the `k`-th
   * action: the nodes found so far and what the remaining children collect
   * make up what all children collect, and all found nodes hang below the
   * root of `nodo`.
   */
  ghost predicate CosteEnCurso(p: Problema, viejos: seq<Nodo>, nodos: seq<Nodo>, nodo: nat, k: nat, limite: int,
                               e: set<string>, halladas: seq<nat>)
  {
    Buenos(p, viejos) && Buenos(p, nodos) && Crece(viejos, nodos) && nodo < |viejos| && EnRango(nodos, halladas)
    && viejos[nodo].estado in Estados(p) && viejos[nodo].estado !in e && k <= |FilaDe(p, viejos[nodo].estado)|
    && Hallazgos(nodos, halladas) + SolucionesHijos(p, viejos[nodo].estado, viejos[nodo].coste, k, limite, e)
       == SolucionesHijos(p, viejos[nodo].estado, viejos[nodo].coste, 0, limite, e)
    && forall i :: 0 <= i < |halladas| ==> Raiz(nodos, halladas[i]) == Raiz(viejos, nodo)
  }

  /** One turn of the loop keeps `CosteEnCurso`. */
  lemma CosteAvanza(p: Problema, viejos: seq<Nodo>, antes: seq<Nodo>, nodos: seq<Nodo>, nodo: nat, k: nat, limite: int,
                    e: set<string>, halladas: seq<nat>, nuevas: seq<nat>)
    requires CosteEnCurso(p, viejos, antes, nodo, k, limite, e, halladas) && k < |FilaDe(p, viejos[nodo].estado)|
    requires Buenos(p, nodos) && Crece(antes, nodos) && EnRango(nodos, nuevas)
    requires Hallazgos(nodos, nuevas) == SolucionesDe(p, viejos[nodo].estado, viejos[nodo].coste, k, limite, e)
    requires forall i :: 0 <= i < |nuevas| ==> Raiz(nodos, nuevas[i]) == Raiz(antes, nodo)
    ensures CosteEnCurso(p, viejos, nodos, nodo, k + 1, limite, e, halladas + nuevas)
  {
    var s, c := viejos[nodo].estado, viejos[nodo].coste;
    CreceTransitivo(viejos, antes, nodos);
    HallazgosJunta(antes, nodos, halladas, nuevas);
    HijosPaso(p, s, c, k, limite, e);
    Asocia(Hallazgos(antes, halladas), SolucionesDe(p, s, c, k, limite, e), SolucionesHijos(p, s, c, k + 1, limite, e));
    CreceEstable(p, viejos, antes, nodo);
    RaicesJunta(p, antes, nodos, halladas, nuevas, Raiz(viejos, nodo));
  }

  /** The loop of `__coste_recursivo` over the node's actions. */
  method CosteHijos(p: Problema, t: Arbol, nodo: nat, limite: int, explorados: set<string>) returns (halladas: seq<nat>)
    requires Buenos(p, t.nodos) && nodo < |t.nodos| && t.nodos[nodo].estado !in explorados
    modifies t
    ensures Buenos(p, t.nodos) && Crece(old(t.nodos), t.nodos) && old(t.nodos)[nodo].estado in Estados(p)
    ensures EnRango(t.nodos, halladas)
    ensures Hallazgos(t.nodos, halladas)
      == SolucionesHijos(p, old(t.nodos)[nodo].estado, old(t.nodos)[nodo].coste, 0, limite, explorados)
    ensures forall i :: 0 <= i < |halladas| ==> Raiz(t.nodos, halladas[i]) == Raiz(old(t.nodos), nodo)
    decreases Estados(p) - explorados, 1
  {
    assert NodoBueno(p, t.nodos, nodo);
    var acciones := t.nodos[nodo].acciones;
    ghost var viejos := t.nodos;
    halladas := [];
    var k := 0;
    while k < |acciones|
      invariant 0 <= k <= |acciones| && acciones == FilaDe(p, viejos[nodo].estado)
      invariant CosteEnCurso(p, viejos, t.nodos, nodo, k, limite, explorados, halladas)
    {
      ghost var antes := t.nodos;
      CreceEstable(p, viejos, t.nodos, nodo);
      assert t.nodos[nodo] == viejos[nodo].(hijos := t.nodos[nodo].hijos);
      var nuevas := CosteHijo(p, t, nodo, k, limite, explorados);
      CosteAvanza(p, viejos, antes, t.nodos, nodo, k, limite, explorados, halladas, nuevas);
      halladas := halladas + nuevas;
      k := k + 1;
    }
  }

  /** One turn of the loop of `__coste_recursivo`: the child for the `k`-th action, searched from when its state is unexplored. */
  method CosteHijo(p: Problema, t: Arbol, nodo: nat, k: nat, limite: int, explorados: set<string>) returns (halladas: seq<nat>)
    requires Buenos(p, t.nodos) && nodo < |t.nodos| && k < |t.nodos[nodo].acciones|
    requires t.nodos[nodo].estado !in explorados
    modifies t
    ensures Buenos(p, t.nodos) && Crece(old(t.nodos), t.nodos) && EnRango(t.nodos, halladas)
    ensures var s := old(t.nodos)[nodo].estado;
      var c := old(t.nodos)[nodo].coste;
      s in Estados(p) && old(t.nodos)[nodo].acciones == FilaDe(p, s)
      && k < |FilaDe(p, s)| && Hallazgos(t.nodos, halladas) == SolucionesDe(p, s, c, k, limite, explorados)
    ensures forall i :: 0 <= i < |halladas| ==> Raiz(t.nodos, halladas[i]) == Raiz(old(t.nodos), nodo)
    decreases Estados(p) - explorados, 0
  {
    var s := t.nodos[nodo].estado;
    ghost var c := t.nodos[nodo].coste;
    var vistos := explorados + {s};
    AccionDeNodo(p, t.nodos, nodo, k);
    assert NodoBueno(p, t.nodos, nodo);
    DeHijo(p, s, c, k, limite, explorados);
    var accion := t.nodos[nodo].acciones[k].0;
    ghost var antes := t.nodos;
    var hijo := CreaNodoHijo(p, t, nodo, accion);
    ghost var y := FilaDe(p, s)[k];
    assert t.nodos[hijo].estado == y.1 && accion == y.0;
    assert t.nodos[hijo].coste == c + CosteAccion(p, s, accion);
    halladas := [];
    if t.nodos[hijo].estado !in vistos {
      var coste := CosteAccion(p, s, accion);
      ghost var medio := t.nodos;
      ghost var estado, costeHijo := t.nodos[hijo].estado, t.nodos[hijo].coste;
      halladas := CosteRecursivo(p, t, hijo, limite - coste, vistos);
      DeHijoHallado(p, s, c, k, limite, explorados, estado, costeHijo, coste, Hallazgos(t.nodos, halladas));
      CreceTransitivo(antes, medio, t.nodos);
    }
  }

  /**
   * `range(desde, hasta, paso)`: starts at `desde`, each element `paso` past
   * the one before, every element short of `hasta`, and the element after
   * the last would not be.
   */
  function Rango(desde: int, hasta: int, paso: int): (r: seq<int>)
    requires paso != 0
    ensures forall i :: 0 <= i < |r| ==> if paso > 0 then r[i] < hasta else r[i] > hasta
    ensures forall i, j :: 0 <= i && j == i + 1 && j < |r| ==> r[j] == r[i] + paso
    ensures r != [] ==> r[0] == desde
    ensures var siguiente := if r == [] then desde else r[|r| - 1] + paso;
      if paso > 0 then siguiente >= hasta else siguiente <= hasta
    decreases if paso > 0 then hasta - desde else desde - hasta
  {
    if (paso > 0 && desde < hasta) || (paso < 0 && desde > hasta) then [desde] + Rango(desde + paso, hasta, paso)
    else []
  }

  /** `min(soluciones, key=coste)`: the first of the nodes with the least cost. */
  function PrimeroMasBarato(nodos: seq<Nodo>, xs: seq<nat>): (m: nat)
    requires EnRango(nodos, xs) && xs != []
    ensures m < |xs| && forall i :: 0 <= i < |xs| ==> nodos[xs[m]].coste <= nodos[xs[i]].coste
    ensures forall i :: 0 <= i < m ==> nodos[xs[i]].coste > nodos[xs[m]].coste
  {
    if |xs| == 1 then 0
    else
      var m := PrimeroMasBarato(nodos, xs[..|xs| - 1]);
      if nodos[xs[|xs| - 1]].coste < nodos[xs[m]].coste then |xs| - 1 else m
  }

  /**
   * The first of the cheapest goal nodes found under one limit: a solution
   * from the root, its pair among those the limit collects and no dearer
   * than any of them.
   */
  lemma MejorHallada(p: Problema, nodos: seq<Nodo>, raiz: nat, soluciones: seq<nat>, cota: int, m: nat)
    requires Buenos(p, nodos) && raiz < |nodos| && nodos[raiz].estado == p.estadoInicial && nodos[raiz].coste == 0
    requires EnRango(nodos, soluciones) && m < |soluciones|
    requires Hallazgos(nodos, soluciones) == SolucionesCoste(p, p.estadoInicial, 0, cota, {})
    requires forall j :: 0 <= j < |soluciones| ==> Raiz(nodos, soluciones[j]) == raiz
    requires forall j :: 0 <= j < |soluciones| ==> nodos[soluciones[m]].coste <= nodos[soluciones[j]].coste
    ensures var sols := SolucionesCoste(p, p.estadoInicial, 0, cota, {});
      (nodos[soluciones[m]].estado, nodos[soluciones[m]].coste) in sols
      && forall x :: x in sols ==> nodos[soluciones[m]].coste <= x.1
    ensures EsObjetivo(p, nodos[soluciones[m]].estado) && nodos[soluciones[m]].coste < cota
    ensures Solucion(p, nodos, raiz, soluciones[m])
  {
    var sols := SolucionesCoste(p, p.estadoInicial, 0, cota, {});
    var hs := Hallazgos(nodos, soluciones);
    assert sols[m] == (nodos[soluciones[m]].estado, nodos[soluciones[m]].coste);
    forall x | x in sols ensures nodos[soluciones[m]].coste <= x.1 {
      var j :| 0 <= j < |sols| && sols[j] == x;
      assert x == (nodos[soluciones[j]].estado, nodos[soluciones[j]].coste);
    }
    EnCoste(p, p.estadoInicial, 0, cota, {}, sols[m]);
    Encontrado(p, nodos, raiz, soluciones[m]);
  }

  /** Whether none of the first `n` limits collects a goal. */
  ghost predicate NingunaCota(p: Problema, cotas: seq<int>, n: nat)
    requires n <= |cotas|
  {
    forall m :: 0 <= m < n ==> SolucionesCoste(p, p.estadoInicial, 0, cotas[m], {}) == []
  }

  /** Whether the `n`-th of the limits is the first under which some goal is collected. */
  ghost predicate PrimeraCota(p: Problema, cotas: seq<int>, n: nat)
  {
    n < |cotas| && SolucionesCoste(p, p.estadoInicial, 0, cotas[n], {}) != [] && NingunaCota(p, cotas, n)
  }

  /**
   * `profundidad_iterativa_coste`: for each limit of `range(1, limite + 1,
   * paso)`, the cost-limited search from a new root for the initial state;
   * under the first limit that collects goals, the first of the cheapest of
   * them is returned. A step of 0 is refused, as `range` refuses it.
   */
  method ProfundidadIterativaCoste(p: Problema, t: Arbol, limite: int, paso: int) returns (r: Option<nat>)
    requires Buenos(p, t.nodos) && paso != 0
    modifies t
    ensures Buenos(p, t.nodos) && Crece(old(t.nodos), t.nodos)
    ensures r.None? <==> NingunaCota(p, Rango(1, limite + 1, paso), |Rango(1, limite + 1, paso)|)
    ensures var cotas := Rango(1, limite + 1, paso);
      r.Some? ==> r.value < |t.nodos| && exists n: nat :: (PrimeraCota(p, cotas, n)
        && (t.nodos[r.value].estado, t.nodos[r.value].coste) in SolucionesCoste(p, p.estadoInicial, 0, cotas[n], {})
        && forall x :: x in SolucionesCoste(p, p.estadoInicial, 0, cotas[n], {}) ==> t.nodos[r.value].coste <= x.1)
    ensures r.Some? ==> (r.value < |t.nodos| && EsObjetivo(p, t.nodos[r.value].estado)
      && t.nodos[Raiz(t.nodos, r.value)].estado == p.estadoInicial && t.nodos[Raiz(t.nodos, r.value)].coste == 0
      && Solucion(p, t.nodos, Raiz(t.nodos, r.value), r.value))
  {
    var cotas := Rango(1, limite + 1, paso);
    for n := 0 to |cotas|
      invariant NingunaCota(p, cotas, n)
      invariant Buenos(p, t.nodos) && Crece(old(t.nodos), t.nodos)
    {
      var cota := cotas[n];
      ghost var antes := t.nodos;
      var raiz := CreaNodoRaiz(p, t, None);
      ghost var medio := t.nodos;
      assert medio[raiz].estado == p.estadoInicial && medio[raiz].coste == 0;
      var soluciones := CosteRecursivo(p, t, raiz, cota, {});
      CreceTransitivo(old(t.nodos), antes, medio);
      CreceTransitivo(old(t.nodos), medio, t.nodos);
      ghost var sols := SolucionesCoste(p, p.estadoInicial, 0, cota, {});
      assert Hallazgos(t.nodos, soluciones) == sols;
      if soluciones != [] {
        var m := PrimeroMasBarato(t.nodos, soluciones);
        r := Some(soluciones[m]);
        CreceEstable(p, medio, t.nodos, raiz);
        assert t.nodos[raiz] == medio[raiz].(hijos := t.nodos[raiz].hijos);
        MejorHallada(p, t.nodos, raiz, soluciones, cota, m);
        assert PrimeraCota(p, cotas, n);
        assert SolucionesCoste(p, p.estadoInicial, 0, cotas[n], {}) != [];
        return;
      }
      assert sols == [];
    }
    r := None;
  }

  // ---------------------------------------------------------------------------
  // bidireccional / amplia_frontera
  // ---------------------------------------------------------------------------

  /**
   * The forward half of `bidireccional`: the problem itself with the first
   * goal as its only goal, so that the goal test of `anchura` is
   * `amplia_frontera`'s `objetivo == hijo.estado`.
   */
  function HaciaObjetivo(p: Problema): (q: Problema)
    requires p.objetivos != []
    ensures q.acciones == p.acciones && q.costes == p.costes && q.estadoInicial == p.estadoInicial
    ensures forall s :: EsObjetivo(q, s) <==> s == p.objetivos[0]
  {
    p.(objetivos := [p.objetivos[0]])
  }

  /**
   * The backward half of `bidireccional`: a search from the first goal whose
   * only goal is the initial state. It follows the same table of actions,
   * forwards, as `amplia_frontera` does.
   */
  function DesdeObjetivo(p: Problema): (q: Problema)
    requires p.objetivos != []
    ensures q.acciones == p.acciones && q.costes == p.costes && q.estadoInicial == p.objetivos[0]
    ensures forall s :: EsObjetivo(q, s) <==> s == p.estadoInicial
  {
    p.(estadoInicial := p.objetivos[0], objetivos := [p.estadoInicial])
  }

  /** The frontier followed by the explored nodes, all in the tree of `raiz`. */
  lemma Juntos(nodos: seq<Nodo>, fr: seq<nat>, ex: seq<nat>, raiz: nat)
    requires Arena(nodos) && EnRango(nodos, fr) && EnRango(nodos, ex) && DeRaiz(nodos, fr, raiz) && DeRaiz(nodos, ex, raiz)
    ensures EnRango(nodos, fr + ex) && DeRaiz(nodos, fr + ex, raiz)
  {
    forall k | 0 <= k < |fr + ex| ensures (fr + ex)[k] < |nodos| && Raiz(nodos, (fr + ex)[k]) == raiz {
      if k >= |fr| {
        assert (fr + ex)[k] == ex[k - |fr|];
      }
    }
  }

  /**
   * One side of `bidireccional` between turns: the loop invariant of
   * `anchura` for `q` in the tree rooted at node 0, and the explored nodes
   * (`explorados_i` or `explorados_f`, a list of nodes) in that tree.
   */
  ghost predicate Lado(q: Problema, nodos: seq<Nodo>, fr: seq<nat>, ex: set<string>, vistos: seq<nat>)
  {
    EnCurso(q, nodos, 0, fr, ex) && EnRango(nodos, vistos) && DeRaiz(nodos, vistos, 0)
  }

  /**
   * One side's half of a turn of `bidireccional`: the first frontier node is
   * taken out and recorded as explored, and `amplia_frontera` generates its
   * children, returning one for the side's goal.
   */
  method PasoLado(q: Problema, t: Arbol, fr: seq<nat>, ex: set<string>, vistos: seq<nat>)
    returns (fr': seq<nat>, ex': set<string>, vistos': seq<nat>, r: Option<nat>)
    requires Lado(q, t.nodos, fr, ex, vistos) && fr != []
    modifies t
    ensures Buenos(q, t.nodos) && Crece(old(t.nodos), t.nodos) && vistos' == vistos + [fr[0]]
    ensures Estados(q) - ex' < Estados(q) - ex
    ensures r.Some? ==> (r.value < |t.nodos| && EsObjetivo(q, t.nodos[r.value].estado) && Solucion(q, t.nodos, 0, r.value))
    ensures r.None? ==> Lado(q, t.nodos, fr', ex', vistos')
  {
    ghost var antes := t.nodos;
    vistos' := vistos + [fr[0]];
    fr', ex', r := PasoCiega(q, t, 0, fr, ex, false);
    DeRaizCrece(q, antes, t.nodos, vistos', 0);
  }

  /**
   * The meeting test of `bidireccional`: the states of the nodes `xs` of
   * one tree and `ys` of the other are compared; when they share some state
   * (any one of them, as `set.pop` picks it), the first node for it in each
   * list is returned.
   */
  method Encuentro(nodosI: seq<Nodo>, xs: seq<nat>, nodosF: seq<Nodo>, ys: seq<nat>) returns (r: Option<(nat, nat)>)
    requires EnRango(nodosI, xs) && EnRango(nodosF, ys)
    ensures r.None? <==> forall i, j :: 0 <= i < |xs| && 0 <= j < |ys| ==> nodosI[xs[i]].estado != nodosF[ys[j]].estado
    ensures r.Some? ==> (r.value.0 < |xs| && r.value.1 < |ys| && nodosI[xs[r.value.0]].estado == nodosF[ys[r.value.1]].estado
      && (forall i :: 0 <= i < r.value.0 ==> nodosI[xs[i]].estado != nodosI[xs[r.value.0]].estado)
      && (forall j :: 0 <= j < r.value.1 ==> nodosF[ys[j]].estado != nodosF[ys[r.value.1]].estado))
  {
    var estadosI, estadosF := EstadosDe(nodosI, xs), EstadosDe(nodosF, ys);
    var comunes := (set x | x in estadosI) * (set y | y in estadosF);
    if comunes == {} {
      forall i, j | 0 <= i < |xs| && 0 <= j < |ys| ensures nodosI[xs[i]].estado != nodosF[ys[j]].estado {
        assert estadosI[i] !in comunes;
      }
      return None;
    }
    var comun :| comun in comunes;
    var i, j := PrimeroCon(nodosI, xs, comun), PrimeroCon(nodosF, ys, comun);
    r := Some((i.value, j.value));
  }

  /**
   * `bidireccional`: a breadth-first search from the initial state towards
   * the first goal and one from the first goal towards the initial state,
   * each in its own tree, taking turns. Both roots are returned when the
   * initial state is a goal; a node of the first search for the first goal,
   * or one of the second search for the initial state, as soon as one is
   * generated; after each turn, once some state is known to both searches
   * (on a frontier or explored), the first node for it in each; and two
   * Nones once a frontier runs out, which shows that one of the two
   * searches has no solution.
   */
  method Bidireccional(p: Problema) returns (ti: Arbol, tf: Arbol, ri: Option<nat>, rf: Option<nat>)
    requires p.objetivos != []
    ensures fresh(ti) && fresh(tf) && ti != tf
    ensures Buenos(HaciaObjetivo(p), ti.nodos) && Buenos(DesdeObjetivo(p), tf.nodos)
    ensures ti.nodos != [] && ti.nodos[0].estado == p.estadoInicial && ti.nodos[0].padre.None? && ti.nodos[0].coste == 0
    ensures tf.nodos != [] && tf.nodos[0].estado == p.objetivos[0] && tf.nodos[0].padre.None? && tf.nodos[0].coste == 0
    ensures ri == Some(0) && rf == Some(0) <==> EsObjetivo(p, p.estadoInicial)
    ensures ri.Some? && rf.None? ==> (ri.value < |ti.nodos| && ti.nodos[ri.value].estado == p.objetivos[0]
      && Solucion(HaciaObjetivo(p), ti.nodos, 0, ri.value))
    ensures ri.None? && rf.Some? ==> (rf.value < |tf.nodos| && tf.nodos[rf.value].estado == p.estadoInicial
      && Solucion(DesdeObjetivo(p), tf.nodos, 0, rf.value))
    ensures ri.Some? && rf.Some? && !EsObjetivo(p, p.estadoInicial) ==>
      (ri.value < |ti.nodos| && rf.value < |tf.nodos| && ti.nodos[ri.value].estado == tf.nodos[rf.value].estado
       && Solucion(HaciaObjetivo(p), ti.nodos, 0, ri.value) && Solucion(DesdeObjetivo(p), tf.nodos, 0, rf.value))
    ensures ri.None? && rf.None? ==> SinSolucion(HaciaObjetivo(p)) || SinSolucion(DesdeObjetivo(p))
  {
    var pi := HaciaObjetivo(p);
    var pf := DesdeObjetivo(p);
    ti := new Arbol();
    tf := new Arbol();
    var raizI := CreaNodoRaiz(pi, ti, Some(p.estadoInicial));
    var raizF := CreaNodoRaiz(pf, tf, Some(p.objetivos[0]));
    if EsObjetivo(p, ti.nodos[raizI].estado) || p.estadoInicial == tf.nodos[raizF].estado {
      ri, rf := Some(raizI), Some(raizF);
      return;
    }
    var fronteraI, fronteraF := [raizI], [raizF];
    var exploradosI, exploradosF: set<string> := {}, {};
    var nodosI, nodosF: seq<nat> := [], [];
    Arranque(pi, ti.nodos, raizI);
    Arranque(pf, tf.nodos, raizF);
    while true
      invariant Lado(pi, ti.nodos, fronteraI, exploradosI, nodosI) && Lado(pf, tf.nodos, fronteraF, exploradosF, nodosF)
      invariant ti.nodos[0].estado == p.estadoInicial && tf.nodos[0].estado == p.objetivos[0]
      decreases Estados(pi) - exploradosI
    {
      if fronteraI == [] {
        Agotado(pi, ti.nodos, 0, exploradosI);
        ri, rf := None, None;
        return;
      }
      if fronteraF == [] {
        Agotado(pf, tf.nodos, 0, exploradosF);
        ri, rf := None, None;
        return;
      }
      ghost var antes := ti.nodos;
      var encontrado;
      fronteraI, exploradosI, nodosI, encontrado := PasoLado(pi, ti, fronteraI, exploradosI, nodosI);
      CreceEstable(pi, antes, ti.nodos, 0);
      if encontrado.Some? {
        ri, rf := encontrado, None;
        return;
      }
      antes := tf.nodos;
      fronteraF, exploradosF, nodosF, encontrado := PasoLado(pf, tf, fronteraF, exploradosF, nodosF);
      CreceEstable(pf, antes, tf.nodos, 0);
      if encontrado.Some? {
        ri, rf := None, encontrado;
        return;
      }
      var todosI, todosF := fronteraI + nodosI, fronteraF + nodosF;
      Juntos(ti.nodos, fronteraI, nodosI, 0);
      Juntos(tf.nodos, fronteraF, nodosF, 0);
      var comun := Encuentro(ti.nodos, todosI, tf.nodos, todosF);
      if comun.Some? {
        ri, rf := Some(todosI[comun.value.0]), Some(todosF[comun.value.1]);
        EsSolucion(pi, ti.nodos, 0, ri.value);
        EsSolucion(pf, tf.nodos, 0, rf.value);
        return;
      }
    }
  }
}
