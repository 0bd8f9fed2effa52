# Verified model of the search, logic and agent cores of `codigoia`

This project is a Dafny model of three parts of the `codigoia` teaching repository, with proofs about each.

- **Graph search.** This covers the problem and node structures of `busqueda/grafos.py` and `busqueda/grafos_simple.py`. It covers the uninformed searches of `busqueda/noinformada.py`: breadth-first, depth-first, uniform cost, recursive and iterative depth-first, cost-bounded iterative deepening and bidirectional search. It covers the informed searches of `busqueda/informada.py`: greedy, A*, iterative A*, IDA*, recursive best-first and memory-bounded A*.
  - States and actions are identified by their names.
  - A transition row is an ordered list, so Python's dict order decides the order of children.
  - Every node lives in an arena: the class `Grafos.Arbol` holds a sequence of node records, and `padre`/`hijos` are indices into it, with a parent always before its children. Methods append to the arena or update records in it, as the Python code does with node objects.
  - The informed searches use the nodes of `busqueda/grafos_simple.py`, the only nodes that carry `heuristicas`, `valores` and `alfa`.
  - `Espacio` and `Frontera` hold what the searches share: the states of a problem, walks through its table, the well-formedness of the arena, and the frontier and explored-set bookkeeping. That bookkeeping keeps frontier states distinct and not explored, and every action of an explored state leads to an explored or frontier state.
  - For the frontier searches the model proves that a returned node is a goal reached from the root by parent links, with its cost equal to `coste_camino`. It also proves that None comes back exactly when no goal is reachable, except for `sma_estrella`, whose dropped nodes can hide the only route.
- **Propositional logic.** `Motor` models formulas of `logica/proposiciones/motor.py` as a datatype. It covers their variables, evaluation, the truth-table rows, the tautology, contradiction and contingency tests, equivalence, structural identity, substitution and the validity of an argument. `Inferencia` models the recursive truth-table entailment `tabla_verdad`. That procedure appears in `logica/proposiciones/inferencia.py` and, almost unchanged, in `logica/inferencia.py`. The model proves it gives the same verdict as `Razonamiento.es_valido`.
- **Agents.** `Agentes` models the table, simple-reflex and model-based agents of `agentes.py`. `agentes_simple.py` holds the same classes and is cited alongside. The modules `Tabla`, `Modelos` and `Simple` (in `AgentesBusqueda.dfy`) model the agents of `busqueda/agentes/`, which strip percepts with `str.strip()` (module `Texto`). Each agent is a class whose `Actuar` updates its fields. Each `Actuar` is specified by a step function, and the lemmas about the agents are stated over those step functions.

## Model

| member | source | states |
|---|---|---|
| Agentes.PasoTabla | agentes.py:19-29 | one call of the table agent: an empty percept returns the default action and keeps the history; otherwise the history extended by the percept is looked up: when it is a key, the answer is its action and the extended history is kept; when it is not, the history is forgotten and the default returned; a valid history stays valid, and every answer is the default or a table action |
| Agentes.EjecutarTablaValido | agentes_simple.py:19-29 | over any run of percepts the history stays a key of the table (or empty) and one action comes out per percept |
| Agentes.ExtenderUne | agentes.py:23-26 | extending the comma-joined history by a percept is joining the longer percept list |
| Agentes.UnirNoVacio | agentes.py:23-26 | the joined history of a non-empty window of non-empty percepts is not empty |
| Agentes.HistorialEsVentana | agentes.py:19-29 | the history is the joined window of percepts since the last miss: when the window extended by a new percept is a table key, the agent answers its action and keeps that window; otherwise it empties the window and answers the default |
| Agentes.AgenteTabla.constructor | agentes.py:15-17 | the agent keeps the table and starts with an empty history |
| Agentes.AgenteTabla.Actuar | agentes.py:19-29 | the returned action and the new history are those of `PasoTabla` on the old history |
| Agentes.AgenteReactivoSimple.Actuar | agentes.py:39-45 | the rule for a known non-empty percept, the default action for an empty or unknown one |
| Agentes.TablaVaciaEsReactiva | agentes.py:19-45 | a table agent with an empty history answers like a reflex agent over the same table |
| Agentes.PasoModelo | agentes.py:62-80 | one call of the model-based agent: an empty percept returns the initial action and changes nothing; a known (state, last action, percept) whose target state has a rule moves to that state, answers its rule and records it as last action, keeping `accion`; an unknown key or a target without a rule resets state, `accion` and last action to the initial ones and answers the initial action; conversely any step that is not a reset came from a known key; the memory stays coherent |
| Agentes.EjecutarModeloCoherente | agentes_simple.py:62-80 | the last action is always the rule of the current state or the initial action of the initial state, over any run of percepts |
| Agentes.AgenteBasadoModelos.constructor | agentes.py:52-60 | the agent keeps model, rules, initial state and action, starts in the initial state with no action and the initial action as last action, and is coherent |
| Agentes.AgenteBasadoModelos.Actuar | agentes.py:62-80 | the returned action and the new memory are those of `PasoModelo` on the old memory |
| Agentes.DemoTabla | agentes.py:89-118 | the vending table: `moneda`, `a1` answers `pedir-codigo`, `servir-bebida1`; `moneda`, `a4` answers `pedir-codigo`, `esperar` and forgets the history |
| Agentes.DemoModelo | agentes.py:135-161 | the vending state machine: `moneda`, `a1`, `servida` answer `pedir-codigo`, `esperar`, `pedir-moneda` |
| Tabla.PasoTabla | busqueda/agentes/tabla.py:36-68 | one call is the table agent of `agentes.py` on the stripped percept; a whitespace-only percept returns the default and keeps the history |
| Tabla.PasoTablaIgnoraEspacios | busqueda/agentes/tabla.py:53-55 | a percept and its stripped form drive the agent the same way |
| Tabla.AgenteTabla.constructor | busqueda/agentes/tabla.py:18-34 | an empty table is refused; the agent keeps the table and starts with a valid, empty history |
| Tabla.AgenteTabla.Actuar | busqueda/agentes/tabla.py:36-68 | the action and new history are those of `PasoTabla`; a valid history stays valid |
| Modelos.NuevaConfiguracion | busqueda/agentes/modelos.py:34-44 | an empty model or rule table is refused (both directions); a missing initial state or action becomes the empty string |
| Modelos.PasoModelo | busqueda/agentes/modelos.py:52-91 | the same action, state and stored action as the agent of `agentes.py` on the stripped percept; a known key whose target has a rule moves there and records the rule as last action; an unknown key or a target without a rule restores state and `accion` but keeps the last action as it was; a whitespace-only percept changes nothing |
| Modelos.EjecutarModeloConocida | busqueda/agentes/modelos.py:52-91 | the last action is always the initial action or the rule of some state, over any run of percepts |
| Modelos.AgenteBasadoModelos.constructor | busqueda/agentes/modelos.py:20-50 | the configuration is `NuevaConfiguracion` of the arguments; the agent starts in the initial state with the initial action as last action |
| Modelos.AgenteBasadoModelos.Actuar | busqueda/agentes/modelos.py:52-91 | the action and new memory are those of `PasoModelo`; the last action stays known |
| Modelos.PasoModeloCorregido | busqueda/agentes/modelos.py:74-84 | the reset as intended also restores the last action, so coherence is kept; the new memory is the reset one, the old one, or a state answered by its rule |
| Modelos.LlegaAtasco | busqueda/agentes/modelos.py:74-77 | the demo agent, given `moneda` then the unknown code `a4`, ends in the stuck memory (initial state, last action `pedir-codigo`) |
| Modelos.AtascoPermanente | busqueda/agentes/modelos.py:106-126 | from the stuck memory every later percept answers `pedir-moneda` and the agent never leaves it |
| Modelos.RecuperaCorregido | busqueda/agentes/modelos.py:106-126 | with the intended reset, `moneda`, `a4`, `moneda` answers `pedir-codigo` again at the end |
| Simple.AgenteReactivoSimple.Actuar | busqueda/agentes/simple.py:34-59 | the reflex rule of `agentes.py` on the stripped percept: the default or one of the rules' actions |
| Simple.Nuevo | busqueda/agentes/simple.py:20-32 | an empty rule table is refused (both directions); otherwise the agent keeps the rules |
| Simple.ActuarIgnoraEspacios | busqueda/agentes/simple.py:50-52 | surrounding whitespace does not change the action |
| Simple.ActuarSoloEspacios | busqueda/agentes/simple.py:50-52 | a whitespace-only percept answers the default action |
| Texto.QuitaIzquierdaSufijo | busqueda/agentes/tabla.py:53 | dropping leading whitespace leaves a suffix that does not start with whitespace, and only whitespace was dropped |
| Texto.QuitaDerechaPrefijo | busqueda/agentes/tabla.py:53 | dropping trailing whitespace leaves a prefix that does not end with whitespace, and only whitespace was dropped |
| Texto.StripSinBordes | busqueda/agentes/simple.py:50 | a string without whitespace at either end is left unchanged by `strip` |
| Texto.StripVacio | busqueda/agentes/modelos.py:66-68 | the stripped percept is empty exactly when the percept is only whitespace |
| Texto.StripIdempotente | busqueda/agentes/tabla.py:53 | the result of `strip` has no whitespace at either end, and stripping twice is stripping once |
| Motor.CreaProposicion | logica/proposiciones/motor.py:48-71 | a proposition is kept, a string becomes a variable, a bool a constant; any other value is an error (both directions) |
| Motor.ConjAsociativa | logica/proposiciones/motor.py:262-290 | `(a & b) & c` and `a & (b & c)` build the same flat conjunction |
| Motor.DisyAsociativa | logica/proposiciones/motor.py:292-320 | `(a \| b) \| c` and `a \| (b \| c)` build the same flat disjunction |
| Motor.VariablesLista | logica/proposiciones/motor.py:185-198 | the variables of a list of children include those of every child |
| Motor.VariablesListaMiembros | logica/proposiciones/motor.py:185-198 | a name is a variable of a list exactly when it is a variable of one of its members |
| Motor.VariablesListaConcat | logica/proposiciones/motor.py:185-198 | the variables of a concatenation are the union of both sides' |
| Motor.TodasAlguna | logica/proposiciones/motor.py:795-841 | a conjunction's children are all true exactly when `all` holds, a disjunction's some is true exactly when `any` holds |
| Motor.TablasDeVerdad | logica/proposiciones/motor.py:761-948 | the truth table of each connective: negation, `all` (true when empty), `any` (false when empty), implication false only for a true premise and false conclusion, reverse implication likewise, equivalence as equality |
| Motor.EvaluarLocal | logica/proposiciones/motor.py:200-210 | the value of a formula depends only on the values of its own variables |
| Motor.ListaLocal | logica/proposiciones/motor.py:795-841 | `all`/`any` over children depend only on the children's variables |
| Motor.ListaConcat | logica/proposiciones/motor.py:795-841 | `all` over a concatenation is the conjunction of both halves, `any` the disjunction |
| Motor.ConjuntosFieles | logica/proposiciones/motor.py:262-278 | the operands `&` flattens out of a formula have its variables and are all true exactly when it is |
| Motor.DisyuntosFieles | logica/proposiciones/motor.py:292-308 | the operands `\|` flattens out of a formula have its variables and some is true exactly when it is |
| Motor.ConjCorrecta | logica/proposiciones/motor.py:262-290 | `a & b` has the variables of both and is true exactly when both are |
| Motor.DisyCorrecta | logica/proposiciones/motor.py:292-320 | `a \| b` has the variables of both and is true exactly when either is |
| Motor.CombinaFilas | logica/proposiciones/motor.py:99-118 | the loop of `_combina` builds exactly the rows of the rest extended by the variable's value, in order |
| Motor.Filas | logica/proposiciones/motor.py:74-123 | the table over n variables has 2^n rows and each row assigns exactly those variables |
| Motor.FilasMitades | logica/proposiciones/motor.py:119-123 | with distinct variables the first variable is True in the first half of the rows and False in the second |
| Motor.ExtenderSin | logica/proposiciones/motor.py:99-118 | extending a row by a new variable and removing it again gives the row back |
| Motor.SinReconstruye | logica/proposiciones/motor.py:99-118 | a row is its value for a variable put back onto the row without it |
| Motor.FilaEn | logica/proposiciones/motor.py:74-123 | row i is the first variable's value (True in the first half) over the matching row of the rest |
| Motor.FilasCompletas | logica/proposiciones/motor.py:74-123 | with distinct variables every total assignment of them is a row |
| Motor.FilasDistintas | logica/proposiciones/motor.py:74-123 | with distinct variables no row occurs twice |
| Motor.Orden | logica/proposiciones/motor.py:185-198 | some enumeration without repetitions of the variable set |
| Motor.CiertaEnFilas | logica/proposiciones/motor.py:470-481 | true on every row of the table exactly when true under every assignment of its variables |
| Motor.Pow2Positivo | logica/proposiciones/motor.py:74-123 | the table always has at least one row |
| Motor.TautologiaSemantica | logica/proposiciones/motor.py:470-481 | `es_tautologia` holds exactly when the formula is true under every assignment |
| Motor.ContradiccionSemantica | logica/proposiciones/motor.py:483-494 | `es_contradiccion` holds exactly when the formula is false under every assignment |
| Motor.EquivalenteSemantica | logica/proposiciones/motor.py:509-527 | `es_equivalente` holds exactly when both formulas agree under every assignment of their joint variables |
| Motor.TautologiaSinOrden | logica/proposiciones/motor.py:470-481 | the verdict does not depend on the order in which the variable set is enumerated |
| Motor.ExactamenteUna | logica/proposiciones/motor.py:470-507 | exactly one of tautology, contradiction and contingent holds |
| Motor.ContingenteSemantica | logica/proposiciones/motor.py:496-507 | contingent exactly when true under some assignment and false under another |
| Motor.EquivalenteReflexivaSimetrica | logica/proposiciones/motor.py:509-527 | `es_equivalente` is reflexive and symmetric |
| Motor.DemoEquivalencia | logica/proposiciones/motor.py:1215-1222 | `P >> Q` is equivalent to `~P \| Q` but not identical to it |
| Motor.IdenticaEsIgualdad | logica/proposiciones/motor.py:529-542 | `es_identica` holds exactly for structurally equal formulas |
| Motor.IdenticasListaEsIgualdad | logica/proposiciones/motor.py:529-542 | child lists are pairwise identical exactly when equal |
| Motor.SustituyeLista | logica/proposiciones/motor.py:544-560 | substituting in the children keeps their number |
| Motor.SinOcurrenciaIdentica | logica/proposiciones/motor.py:544-560 | when the replaced formula does not occur, substitution returns the formula unchanged |
| Motor.SinOcurrenciaLista | logica/proposiciones/motor.py:544-560 | likewise for a list of children |
| Motor.ConstanteNoOcurre | logica/proposiciones/motor.py:633-644 | a constant never occurs where `sustituye` looks |
| Motor.ConstanteNoOcurreLista | logica/proposiciones/motor.py:633-644 | likewise in a list of children |
| Motor.ConstanteNuncaSustituida | logica/proposiciones/motor.py:633-644 | replacing a constant leaves every formula unchanged |
| Motor.SustituyeVariables | logica/proposiciones/motor.py:717-732 | after substituting g for x the variables are those of f without x, plus g's when x occurred |
| Motor.SustituyeVariablesLista | logica/proposiciones/motor.py:717-732 | likewise for a list of children |
| Motor.SustituyeEliminaVariable | logica/proposiciones/motor.py:717-732 | when g does not mention x, x disappears from the result |
| Motor.SustituyeEvalua | logica/proposiciones/motor.py:544-560 | the substituted formula evaluates as the original with x set to g's value |
| Motor.SustituyeEvaluaLista | logica/proposiciones/motor.py:544-560 | likewise for `all`/`any` over children |
| Motor.OcurreVariable | logica/proposiciones/motor.py:704-715 | a variable occurs in a formula only if it is one of its variables |
| Motor.OcurreVariableLista | logica/proposiciones/motor.py:704-715 | likewise in a list of children |
| Motor.CreaProposiciones | logica/proposiciones/motor.py:960-973 | every value converted in order, or an error exactly when some value cannot be |
| Motor.CreaRazonamiento | logica/proposiciones/motor.py:960-973 | the argument is built exactly when premises and conclusion all convert |
| Motor.ValidoSemantico | logica/proposiciones/motor.py:1109-1135 | `es_valido` holds exactly when every assignment satisfying all premises satisfies the conclusion |
| Motor.SinPremisasEsTautologia | logica/proposiciones/motor.py:1109-1135 | without premises an argument is valid exactly when its conclusion is a tautology |
| Motor.SustitucionPreservaValidez | logica/proposiciones/motor.py:1092-1135 | substituting a formula for a variable throughout a valid argument keeps it valid |
| Motor.DemoRazonamiento | logica/proposiciones/motor.py:1359-1366 | `P >> Q, Q >> R` entail `P >> R` |
| Inferencia.Dict | logica/proposiciones/inferencia.py:93 | `dict(modelo)` has exactly the names of the pairs |
| Inferencia.DictUltimoGana | logica/proposiciones/inferencia.py:93 | in `dict(modelo)` each name takes the value of its last pair |
| Inferencia.DictAgrega | logica/proposiciones/inferencia.py:113-116 | appending a pair to the model sets that name |
| Inferencia.Superpone | logica/proposiciones/inferencia.py:93-116 | a value already in the model wins over a value fixed underneath |
| Inferencia.UnNombreMas | logica/proposiciones/inferencia.py:110-131 | every assignment of one more name works exactly when both values of it work |
| Inferencia.FijaUno | logica/proposiciones/inferencia.py:110-131 | fixing one name keeps "every assignment works" |
| Inferencia.ComprobarSemantica | logica/proposiciones/inferencia.py:90-131 | the recursion answers True exactly when every assignment of the remaining symbols laid over `dict(modelo)` satisfies the premises only if it satisfies the conclusion |
| Inferencia.TablaVerdad | logica/proposiciones/inferencia.py:44-131 | each of the three errors arises exactly in its case (falsy conclusion; no variables and non-propositions; a value that cannot be converted); otherwise the verdict is entailment over the symbols |
| Inferencia.Restringe | logica/proposiciones/inferencia.py:90-131 | checking the assignments of a covering set of names is checking every covering assignment |
| Inferencia.Proposiciones | logica/inferencia.py:39-120 | the values wrapping the given propositions |
| Inferencia.TablaVerdadEsValido | logica/proposiciones/inferencia.py:44-131 | on propositions with the defaults the answer is `Razonamiento.es_valido` of the argument |
| Inferencia.TablaVerdadConVariables | logica/inferencia.py:39-120 | with a covering variable list, names and constants are accepted too and the answer is again `es_valido` |
| Inferencia.OrdenIndiferente | logica/proposiciones/inferencia.py:110-131 | the order in which the symbols are listed does not change the verdict |
| Inferencia.Silogismo | logica/proposiciones/inferencia.py:178-184 | the demo argument has three premises |
| Inferencia.SilogismoValido | logica/proposiciones/inferencia.py:178-184 | `P >> Q, Q >> R, R >> S` entail `P >> S` |
| Inferencia.DemoSilogismo | logica/proposiciones/inferencia.py:196-198 | `tabla_verdad` on the demo argument answers True |
| Grafos.Busca | busqueda/grafos.py:137-148 | a row lookup finds the action's target exactly when the row has that action, and gives the value stored for it |
| Grafos.NuevoProblema | busqueda/grafos.py:68-107 | a problem is built exactly when there is an initial state, at least one goal, some actions and some costs, and it keeps all of them |
| Grafos.EsObjetivo | busqueda/grafos.py:109-117 | true exactly when the state is one of the goals |
| Grafos.Resultado | busqueda/grafos.py:119-148 | a target exactly when the state has a row holding the action, and then the pair is in the row; otherwise none |
| Grafos.CosteAccion | busqueda/grafos.py:150-177 | the registered cost of the action in the state, or the infinite cost when either is missing |
| Grafos.CosteRutaEstable | busqueda/grafos.py:179-203 | path cost and depth of an old node do not change while the tree grows |
| Grafos.ArenaCambia | busqueda/grafos.py:249-268 | relinking a node's children among existing nodes keeps every parent older than its child |
| Grafos.HijosDesde | busqueda/grafos.py:299-323 | one child per action of the node's row, in order, each with the action's target as state, no children and `base` plus the action's cost |
| Grafos.HijosCorregidosExactos | busqueda/grafos.py:316-320 | costing the children from the node's own cost keeps every node's cost equal to its path cost |
| Grafos.ExpandirRepetido | busqueda/grafos.py:287-297 | expanding a second time builds the same children: the reset and the cached actions change nothing |
| Grafos.PasoExpandir | busqueda/grafos.py:311-323 | one turn of the loop appends the next child and links it as the node's last child |
| Grafos.ArenaExpandida | busqueda/grafos.py:287-326 | appending the children of a node and listing them as its children keeps the tree well formed |
| Grafos.Arbol.constructor | busqueda/grafos.py:214-247 | an empty, well-formed set of node objects |
| Grafos.Arbol.Nuevo | busqueda/grafos.py:214-247 | a new node object is appended and its index returned |
| Grafos.Arbol.CosteCamino | busqueda/grafos.py:179-203 | the loop climbing the parents returns the sum of the action costs along the path to the root |
| Grafos.Arbol.Colgar | busqueda/grafos_simple.py:135-143 | a child built with its parent is appended and added last to the parent's children |
| Grafos.Arbol.Agregar | busqueda/grafos.py:249-268 | the child's parent becomes the node, the child is appended to its children, nothing else changes, and the tree stays well formed when the parent is older |
| Grafos.Arbol.AgregarHijos | busqueda/grafos.py:299-323 | the loop allocates one child per action of the row, in order, costed `base` plus the action, and links each to the node |
| Grafos.Arbol.ExpandirDesde | busqueda/grafos.py:287-326 | children reset, actions taken from the table when missing, then exactly the children of `HijosDesde`, as new indices |
| Grafos.Arbol.Expandir | busqueda/grafos.py:270-326 | `expandir` as written: the new tree is the old one with the node's children replaced by freshly appended children costed from the grandparent's cost |
| Grafos.Arbol.ExpandirCorregido | busqueda/grafos.py:316-320 | `expandir` costed from the node's own cost: same shape, and exact costs stay exact |
| Grafos.RutaEjemplo | busqueda/grafos.py:436-526 | the hand-built route Faro, Sevilla, Madrid, Valencia, Barcelona is a well-formed chain of five nodes |
| Grafos.RutaEjemploPasos | busqueda/grafos.py:450-519 | each step of the route is a road of the map |
| Grafos.RutaEjemploCuesta | busqueda/grafos.py:458-526 | the route costs 1441 km, Barcelona is the goal and Madrid is not |
| Grafos.FaroExpandido | busqueda/grafos.py:436-455 | Faro expanded once: the root, Lisboa and Sevilla |
| Grafos.CosteAbueloFalla | busqueda/grafos.py:316-320 | expanding Sevilla as written costs Madrid 534 km while its path is 734 km, so exact costs become inexact; the intended expansion gives 734 |
| GrafosSimple.Nombres | busqueda/grafos_simple.py:50-53 | the action names of a row |
| GrafosSimple.Unitarios | busqueda/grafos_simple.py:50-53 | one unit of cost for each action of a row and nothing else |
| GrafosSimple.CostesUnitarios | busqueda/grafos_simple.py:48-53 | the default costs have a row for every state of the table, with cost 1 per action |
| GrafosSimple.HeuristicasPorDefecto | busqueda/grafos_simple.py:54-59 | the default heuristics as written: for every state of the table, the infinite value for each goal, keyed by the goal object |
| GrafosSimple.HeuristicasCorregidas | busqueda/grafos_simple.py:54-59 | the default heuristics as intended: the same values keyed by the goal's name |
| GrafosSimple.CostesPorDefecto | busqueda/grafos_simple.py:48-53 | the nested loops fill exactly the default costs |
| GrafosSimple.HeuristicasIniciales | busqueda/grafos_simple.py:54-59 | the nested loops fill exactly the default heuristics as written |
| GrafosSimple.NuevoProblema | busqueda/grafos_simple.py:40-59 | nothing is validated; the fields are kept, and missing or empty costs and heuristics get their defaults |
| GrafosSimple.CosteUnitario | busqueda/grafos_simple.py:80-87 | with the default costs, every action of the table costs 1 and anything else the infinite value |
| GrafosSimple.DefectoInalcanzable | busqueda/grafos_simple.py:54-59 | with the default heuristics as written no lookup by a goal's name succeeds |
| GrafosSimple.DefectoCorregido | busqueda/grafos_simple.py:54-59 | with the intended defaults every lookup by a goal's name answers the infinite value |
| GrafosSimple.Suma | busqueda/grafos_simple.py:140-142 | the values per goal are heuristic plus cost, over the same goals |
| GrafosSimple.HijosSimples | busqueda/grafos_simple.py:129-143 | the children of `grafos.py` (same order, grandparent cost) each carrying its state's heuristics and, per goal, heuristic plus cost |
| GrafosSimple.PasoDirecto | busqueda/grafos_simple.py:135-143 | one turn of the loop appends the child and lists it as the node's last child |
| GrafosSimple.ColgarHijos | busqueda/grafos_simple.py:129-143 | the loop appends one child per action, in order, linked to the node |
| GrafosSimple.Expandir | busqueda/grafos_simple.py:122-144 | children reset, actions taken from the table when missing, then exactly `HijosSimples` as new indices; the tree stays well formed |
| GrafosSimple.Compara | busqueda/grafos_simple.py:152-193 | one candidate against the current best over every goal: the result is one of the two |
| GrafosSimple.Escoge | busqueda/grafos_simple.py:151-193 | the chosen node is the first node or one of the candidates |
| GrafosSimple.EscogePrimero | busqueda/grafos_simple.py:146-194 | with one goal and a known metric and criterion, the choice is a node no other node strictly beats, and it strictly beats every node before it (ties keep the first) |
| GrafosSimple.EscogeDesconocido | busqueda/grafos_simple.py:146-194 | an unknown metric or criterion keeps the first node |
| GrafosSimple.ComparaDesconocido | busqueda/grafos_simple.py:152-193 | likewise for one candidate |
| GrafosSimple.SuperaEn | busqueda/grafos_simple.py:153-193 | a candidate replaces the best exactly when the metric is known and the candidate is strictly better under the criterion |
| GrafosSimple.HijoMejor | busqueda/grafos_simple.py:146-194 | none exactly when there are no children; otherwise one of the children, the one `Escoge` picks |
| GrafosSimple.CompararHijo | busqueda/grafos_simple.py:152-193 | one child measured against the best so far for every goal in turn gives the node `Compara` settles on: the child takes over whenever it is strictly better for a goal, under the metric and criterion |
| GrafosSimple.HijoMejorPrimero | busqueda/grafos_simple.py:146-194 | with one goal, the best child is the first child no other child beats |
| Espacio.Estados | busqueda/grafos.py:63-107 | every state the problem mentions: the initial state, the goals and every target of the table |
| Espacio.CerradoAtrapa | busqueda/noinformada.py:23-39 | a walk that starts inside a set closed under the table never leaves it |
| Espacio.SinSalida | busqueda/noinformada.py:23-39 | a closed set holding the initial state and no goal proves that no walk from the initial state reaches a goal |
| Espacio.Raiz | busqueda/grafos.py:208-247 | the root a node descends from: no later than it, and without parent |
| Espacio.Cadena | busqueda/grafos.py:208-247 | the states from the root down to a node: one per level, ending with the node's state |
| Espacio.CreceEstable | busqueda/noinformada.py:250-261 | adding nodes changes no old node's root, chain, path cost or depth, and keeps it well built |
| Espacio.CosteAcumulado | busqueda/noinformada.py:256-259 | a node's cost is its path cost plus its root's cost |
| Espacio.CadenaEsCamino | busqueda/noinformada.py:250-261 | the states from a root to any node are a walk of the table |
| Espacio.EsSolucion | busqueda/noinformada.py:250-261 | every node of a well-built tree is a solution from its root: a walk whose cost is the node's cost |
| Espacio.AgregaNodo | busqueda/noinformada.py:239-261 | a node built as the searches build them can be appended keeping the tree well built |
| Espacio.CambiaHijos | busqueda/informada.py:177-183 | replacing a node's children by existing nodes keeps the tree well built |
| Espacio.AgregaRaiz | busqueda/noinformada.py:239-247 | a root as `crea_nodo_raiz` builds it can be appended and is its own root |
| Espacio.AgregaHijo | busqueda/noinformada.py:250-261 | a child as `crea_nodo_hijo` builds it can be appended under its parent and shares its parent's root |
| Espacio.EstadosDe | busqueda/noinformada.py:33 | the states of the frontier nodes, in order |
| Frontera.SolucionAlcanza | busqueda/noinformada.py:36-38 | a goal node reached from the initial state shows a solution exists |
| Frontera.CerradoSinSolucion | busqueda/noinformada.py:24-25 | an explored set closed under the table, holding the initial state and no goal, shows there is no solution |
| Frontera.Encontrado | busqueda/noinformada.py:36-38 | a goal node in the tree of a root at the initial state is a solution |
| Frontera.RegistroAmplia | busqueda/noinformada.py:34-39 | appending a node for a new, unexplored state keeps the frontier bookkeeping |
| Frontera.RegistroCrece | busqueda/noinformada.py:32 | growing the tree keeps the bookkeeping and the frontier's states |
| Frontera.RegistroSaca | busqueda/noinformada.py:26-27 | taking a node out of the frontier and exploring its state keeps the bookkeeping; the state was unexplored |
| Frontera.CubreSaca | busqueda/noinformada.py:26-27 | exploring a frontier state keeps every explored state's actions leading to explored or frontier states, except the new one's |
| Frontera.CubreCompleto | busqueda/noinformada.py:30-39 | once all the actions of the explored state are handled the cover is whole again |
| Frontera.CubreAmplia | busqueda/noinformada.py:39 | a growing frontier keeps the cover |
| Frontera.CubreSigue | busqueda/noinformada.py:34-35 | an action leading to an explored or frontier state is handled |
| Frontera.AmpliaSigue | busqueda/noinformada.py:34-39 | appending a new non-goal child keeps the bookkeeping and handles its action |
| Frontera.LimpioAmplia | busqueda/noinformada.py:36-39 | appending a non-goal keeps goals out of the frontier and the explored set |
| Frontera.CubreVacio | busqueda/noinformada.py:24-25 | with an empty frontier the explored set is closed under the table |
| Frontera.AccionDeNodo | busqueda/noinformada.py:30-32 | each action of a node's row leads where `resultado` says |
| Frontera.SacaCubre | busqueda/noinformada.py:26-27 | taking out and exploring a state keeps the cover (except its actions) and keeps goals out of sight |
| Frontera.PorCosteMenorIgual | busqueda/noinformada.py:71 | the sort key by cost orders nodes as their costs |
| Frontera.Inserta | busqueda/noinformada.py:71 | inserting into the sorted frontier keeps the same nodes plus the new one |
| Frontera.Ordena | busqueda/noinformada.py:71 | the sort keeps exactly the nodes it was given (its order and stability are `OrdenaOrdenada` and `OrdenaEstable`) |
| Frontera.InsertaDelante | busqueda/noinformada.py:71 | an inserted node goes ahead of every node already present with the same key |
| Frontera.InsertaConserva | busqueda/noinformada.py:71 | insertion keeps the relative order of the nodes already present |
| Frontera.OrdenaEstable | busqueda/informada.py:230-231 | the sort is stable: of two frontier nodes with equal keys, the earlier one stays ahead, as Python's `sort` and `sorted` keep them; this decides which equal-cost node `coste_uniforme` takes and which node `sma_estrella` drops |
| Frontera.DelanteOrdenada | busqueda/noinformada.py:71 | a node no greater than all of a sorted frontier heads a sorted frontier |
| Frontera.InsertaOrdenada | busqueda/noinformada.py:71 | insertion keeps the frontier sorted |
| Frontera.OrdenaOrdenada | busqueda/informada.py:227-230 | the sort orders by the key and is a permutation |
| Frontera.PermutaEstados | busqueda/informada.py:230 | reordering a frontier keeps its nodes and its states |
| Frontera.RegistroPermuta | busqueda/informada.py:230 | reordering a frontier keeps its bookkeeping |
| Frontera.PrimeroCon | busqueda/noinformada.py:65-69 | the position of the first frontier node for the state (all earlier ones differ), none exactly when the state is not in the frontier |
| Frontera.Minimo | busqueda/informada.py:45-46 | `min` of a non-empty list: a member no greater than any |
| Frontera.PorObjetivo | busqueda/informada.py:39-44 | the list of a node's entries, one per goal |
| Frontera.Reemplaza | busqueda/noinformada.py:64-70 | the replacement keeps the frontier's length |
| Frontera.ReemplazaMejora | busqueda/informada.py:35-49 | a replacement changes at most the first position holding the child's state, and only when the child is strictly better; it changes the frontier exactly then |
| Frontera.RegistroReemplaza | busqueda/noinformada.py:64-70 | a replacement keeps the bookkeeping and the frontier's states |
| Frontera.CubreMismos | busqueda/noinformada.py:64-71 | the cover depends only on which states the frontier holds |
| Frontera.AnadeSigue | busqueda/informada.py:50-51 | appending a new child keeps the bookkeeping and handles its action |
| Frontera.PrimeroMinimo | busqueda/noinformada.py:51 | the head of a frontier sorted by cost has the least cost |
| Frontera.OrdenadaCola | busqueda/noinformada.py:51 | taking the head keeps the frontier sorted |
| Frontera.OrdenadaCrece | busqueda/noinformada.py:59 | growing the tree keeps the frontier sorted |
| NoInformada.CreaNodoRaiz | busqueda/noinformada.py:239-247 | a parentless node is appended for the given state (the initial one when none is given) with its row of actions and cost 0; the tree stays well built |
| NoInformada.CreaNodoHijo | busqueda/noinformada.py:250-261 | the child reached by the action is appended with its state's row and the parent's cost plus the action's, linked to its parent and listed last among its children |
| NoInformada.CosteEsCamino | busqueda/noinformada.py:256-259 | in a tree grown from a root of cost 0 every node's cost is `coste_camino` of it |
| NoInformada.Arranque | busqueda/noinformada.py:18-22 | a root for a non-goal initial state starts the loop invariant of `anchura`/`profundidad` |
| NoInformada.Agotado | busqueda/noinformada.py:24-25 | with an empty frontier the invariant shows that no goal is reachable |
| NoInformada.AmpliaCiega | busqueda/noinformada.py:30-39 | the loop over the actions: a new goal child is returned; otherwise new children are appended and the invariant (every explored state's actions lead to explored or frontier states, no goal seen) holds again |
| NoInformada.PasoCiega | busqueda/noinformada.py:24-39 | one turn takes out the first node (`pop(0)`, breadth-first) or the last (`pop()`, depth-first) and adds exactly its state to the explored set, a state not explored before; unless a goal child is returned as a solution, the new frontier is the old one without that node, followed by the new children, and the invariant holds |
| NoInformada.Ciega | busqueda/noinformada.py:16-39 | `anchura` and `profundidad`: when the initial state is a goal the new root is returned; a returned node is a goal on a chain from the new root at the initial state; None exactly when no goal is reachable |
| NoInformada.AmpliaUniforme | busqueda/noinformada.py:57-71 | the loop over the actions: new states appended, strictly cheaper nodes replace the first frontier node for their state, and the frontier is sorted by cost |
| NoInformada.ArranqueUniforme | busqueda/noinformada.py:45-47 | a root for the initial state starts the invariant of `coste_uniforme` |
| NoInformada.AgotadoUniforme | busqueda/noinformada.py:49-50 | with an empty frontier the invariant shows that no goal is reachable |
| NoInformada.SacaUniforme | busqueda/noinformada.py:51-54 | taking the first non-goal node out and exploring it keeps the invariant except for that state's actions, and the rest stays sorted |
| NoInformada.PasoUniforme | busqueda/noinformada.py:49-71 | one turn takes a node of least cost; a goal is returned as a solution, otherwise the invariant is kept with one more explored state |
| NoInformada.CosteUniforme | busqueda/noinformada.py:43-71 | a returned node is a goal on a chain from the new root; None exactly when no goal is reachable |
| NoInformada.ExitoSigue | busqueda/noinformada.py:117-125 | when a child fails the search rests on the later children |
| NoInformada.CadenaHijo | busqueda/noinformada.py:119-122 | a child for a state off its parent's chain extends the chain without repeating a state |
| NoInformada.BppRecursiva | busqueda/noinformada.py:108-125 | succeeds exactly as the recursive definition says; a returned node is a goal in the same tree, no state repeated on its chain, within `limite` levels; a goal node returns itself |
| NoInformada.BppHijos | busqueda/noinformada.py:117-125 | the loop over the actions succeeds exactly when some child succeeds, returning the first such |
| NoInformada.BppHijo | busqueda/noinformada.py:118-124 | one child is searched with one level less only when its state is unexplored |
| NoInformada.ExitoDesde | busqueda/noinformada.py:117-125 | success of a later child is success of the loop from an earlier position |
| NoInformada.Antepone | busqueda/noinformada.py:120-122 | a free walk can be extended by a state in front |
| NoInformada.Cola | busqueda/noinformada.py:120-122 | dropping the first state of a free walk leaves a free walk avoiding it |
| NoInformada.ExitoCompleto | busqueda/noinformada.py:108-125 | every cycle-free walk to a goal within the limit is found |
| NoInformada.ExitoSano | busqueda/noinformada.py:108-125 | a success shows a cycle-free walk to a goal within the limit |
| NoInformada.HijosSano | busqueda/noinformada.py:117-125 | a success from the children shows a walk one step longer |
| NoInformada.ExitoRuta | busqueda/noinformada.py:108-125 | the recursive search succeeds exactly when a cycle-free walk to a goal fits the limit |
| NoInformada.Acorta | busqueda/noinformada.py:101-105 | any walk shortens to one without repeated states and the same ends |
| NoInformada.Salta | busqueda/noinformada.py:101-105 | cutting out a loop keeps a walk with the same ends |
| NoInformada.RutaDeSolucion | busqueda/noinformada.py:101-105 | a walk from the initial state meeting a goal gives a cycle-free walk to a goal |
| NoInformada.ProfundidadRecursiva | busqueda/noinformada.py:101-105 | succeeds exactly when a cycle-free walk to a goal has at most `limite` steps, returning a goal solution at most that deep; complete when unlimited |
| NoInformada.ProfundidadIterativa | busqueda/noinformada.py:129-137 | succeeds exactly when a cycle-free walk fits a limit from 1 to `limite` (the default limit when none); with a limit, the goal is at the depth of a shortest cycle-free walk |
| NoInformada.EnCoste | busqueda/noinformada.py:154-171 | everything collected is a goal with cost below the starting cost plus the limit |
| NoInformada.EnHijos | busqueda/noinformada.py:164-171 | likewise for what the children collect |
| NoInformada.EnDe | busqueda/noinformada.py:166-170 | likewise for one child |
| NoInformada.DeHijo | busqueda/noinformada.py:166-170 | a child collects nothing when explored, otherwise what the search from it with the reduced limit collects |
| NoInformada.DeHijoHallado | busqueda/noinformada.py:166-170 | the search from the child's node collects what the child collects |
| NoInformada.HijosPaso | busqueda/noinformada.py:164-170 | the children collect the first child's goals followed by the later children's |
| NoInformada.Hallazgos | busqueda/noinformada.py:159 | the (state, cost) pairs of the collected nodes, in order |
| NoInformada.HallazgosJunta | busqueda/noinformada.py:159 | growing the tree keeps the pairs of old nodes |
| NoInformada.RaicesJunta | busqueda/noinformada.py:159 | goal nodes of one root stay under it as the tree grows |
| NoInformada.CosteRecursivo | busqueda/noinformada.py:154-171 | the goal nodes appended, in order, are exactly the pairs the recursive definition collects, all under the node's root |
| NoInformada.CosteAvanza | busqueda/noinformada.py:164-170 | one turn of the loop keeps its invariant |
| NoInformada.CosteHijos | busqueda/noinformada.py:164-171 | the loop over the actions collects what the children collect |
| NoInformada.CosteHijo | busqueda/noinformada.py:165-170 | one child is searched with the limit reduced by the action's cost only when unexplored |
| NoInformada.Rango | busqueda/noinformada.py:143 | `range(desde, hasta, paso)`: starts at `desde`, steps by `paso`, stays short of `hasta`, and the next element would not |
| NoInformada.PrimeroMasBarato | busqueda/noinformada.py:149 | `min` by cost: the first of the cheapest |
| NoInformada.MejorHallada | busqueda/noinformada.py:147-150 | the cheapest node found under a limit is a solution among the collected goals and no dearer than any of them |
| NoInformada.ProfundidadIterativaCoste | busqueda/noinformada.py:141-151 | None exactly when no limit of the range collects a goal; otherwise the cheapest goal under the first limit that collects one, a solution from its root |
| NoInformada.HaciaObjetivo | busqueda/noinformada.py:194-196 | the forward half: the same table, with the first goal as the only goal |
| NoInformada.DesdeObjetivo | busqueda/noinformada.py:199-201 | the backward half: starts at the first goal, its only goal is the initial state, same table |
| NoInformada.Juntos | busqueda/noinformada.py:211-216 | frontier and explored nodes together stay in their side's tree |
| NoInformada.PasoLado | busqueda/noinformada.py:190-203 | one side's turn: the first frontier node is taken out and recorded, children generated, and a goal for the side is returned as a solution; otherwise the side's invariant holds |
| NoInformada.Encuentro | busqueda/noinformada.py:204-221 | none exactly when the two lists share no state; otherwise the first node for a shared state in each list |
| NoInformada.Bidireccional | busqueda/noinformada.py:175-221 | both roots when the initial state is a goal; a node for the first goal or for the initial state as soon as one side generates it; a shared state's nodes in both trees; two Nones only when one of the halves has no solution |
| Informada.RaizInformada | busqueda/informada.py:236-246 | the root node holds the initial state, no parent, no children, cost 0, the state's heuristics, and `valores` equal to those heuristics |
| Informada.CreaNodoRaiz | busqueda/informada.py:236-246 | exactly one node is appended, the `RaizInformada` node, as a root of its own; the tree stays well built and only grows |
| Informada.DestinoEsEstado | busqueda/informada.py:251 | the state `resultado` returns is always a state of the problem |
| Informada.CreaNodoHijo | busqueda/informada.py:249-266 | the child's cost is the parent's cost plus the action's cost. Its heuristics are its state's row, and each value is heuristic plus cost. With `agregar` the child is linked to the parent and listed last among its children; without it the child has no parent |
| Informada.NuevoHijo | busqueda/informada.py:249-266 | the child reached by the `k`-th action sits in the parent's tree (with `agregar`) or alone (without), and its state is the action's target. It has every goal's heuristic and value, and the parent is untouched |
| Informada.Posicion | busqueda/informada.py:48 | `index` returns the first position that holds the element |
| Informada.Quita | busqueda/informada.py:302 | `remove` drops exactly one copy of the element: one shorter, same multiset minus that element |
| Informada.SacarSiguiente | busqueda/informada.py:269-303 | returns None exactly when the frontier is empty. Otherwise it returns the node the scan over the later nodes and goals settles on, and removes one copy of it from the frontier |
| Informada.CompararNodo | busqueda/informada.py:276-301 | one frontier node measured against the best so far for every goal in turn gives the node `Compara` settles on: the node takes over whenever it is strictly better for a goal |
| Informada.SacarPrimero | busqueda/informada.py:274-294 | with one goal, the node taken out is one that no frontier node beats under the criterion. Every frontier node before it is strictly worse, so it is the first of the best |
| Informada.Acota | busqueda/informada.py:226-232 | the new node always ends the frontier. The frontier grows by one while it is within the cap, and keeps its length once over it |
| Informada.UltimoMayor | busqueda/informada.py:230 | in a frontier sorted by the `valores` list, the last node's key is at least every other node's key |
| Informada.OrdenaUltimoMayor | busqueda/informada.py:230-231 | after `sorted`, the node `pop` removes has a key at least as large as every frontier node's key |
| Informada.Descartado | busqueda/informada.py:230-231 | the node dropped over the cap is a node of the frontier |
| Informada.AcotaDescarta | busqueda/informada.py:226-232 | within the cap the frontier only gains the new node. Over the cap exactly one node goes, one with the largest `valores` key, and the new node comes in; the rest stays as a multiset |
| Informada.AcotaQuitaUno | busqueda/informada.py:226-232 | over the cap the result is the frontier minus the dropped node plus the new node, as a multiset |
| Informada.QuitaUltimo | busqueda/informada.py:231-232 | `pop` then `append` on a permutation of the frontier swaps its last node for the new one, as a multiset |
| Informada.ValoradosMedibles | busqueda/informada.py:277-294 | on nodes carrying every goal's value and heuristic, no dictionary lookup of `sacar_siguiente` fails |
| Informada.ValoradosCrece | busqueda/informada.py:249-266 | adding nodes leaves the tables of the frontier's nodes as they were |
| Informada.ValoradosDe | busqueda/informada.py:49-51 | a frontier rebuilt from nodes of the old frontier and the new child still carries every goal's tables |
| Informada.RegistroSinUltimo | busqueda/informada.py:231 | dropping the last frontier node keeps the search bookkeeping and only removes states from the frontier |
| Informada.Anade | busqueda/informada.py:50-51 | a node for a new state is appended; under a cap (`sma_estrella`) the frontier first goes through `Acota`. The bookkeeping is kept, and without a cap the `k`-th action counts as covered; under a cap the frontier stays within cap plus one |
| Informada.ReemplazaSigue | busqueda/informada.py:35-49 | the replacement branch, whether it swaps the node or not, keeps the bookkeeping. It marks the `k`-th action covered and keeps the frontier within its cap |
| Informada.HijoEnFrontera | busqueda/informada.py:33 | building the child keeps the frontier's bookkeeping and states. The child is in the search tree, has its tables, and its state is the `k`-th action's target |
| Informada.AmpliaAccion | busqueda/informada.py:31-51 | one action's turn keeps the frontier bookkeeping. Without a cap the actions covered grow by one; with one, the frontier stays within cap plus one |
| Informada.AmpliaMejor | busqueda/informada.py:31-51 | after all the node's actions, every action of every explored state (without a cap) ends explored or on the frontier |
| Informada.ArranqueMejor | busqueda/informada.py:18-20 | a root frontier and an empty explored set start the invariant of the best-first loop |
| Informada.AgotadoMejor | busqueda/informada.py:22-23 | without a cap, an empty frontier under the invariant means no goal is reachable from the initial state |
| Informada.ValoradosSaca | busqueda/informada.py:302 | removing a node from the frontier keeps the tables of the others |
| Informada.SacaMejor | busqueda/informada.py:24-28 | removing a non-goal node and exploring its state keeps the bookkeeping. The state was not explored yet, explored states hold no goal, and its actions are the only ones not yet covered |
| Informada.PasoMejor | busqueda/informada.py:21-51 | the node taken is the one `sacar_siguiente` picks. A node returned is a goal with a path from the root, so a solution exists; otherwise the invariant holds and the set of unexplored states shrinks |
| Informada.SacaObjetivo | busqueda/informada.py:26-27 | a goal taken out of the frontier ends a path from the root, so the problem has a solution |
| Informada.ExploraMejor | busqueda/informada.py:28-51 | after a node that is not a goal leaves the frontier, its state joins the explored set, so fewer states are unexplored; the tree only grows and the invariant holds for the new frontier |
| Informada.PrimeroMejor | busqueda/informada.py:16-51 | a node returned is a goal reached by a path of parent links from the new root. Without a cap, None comes back exactly when no goal is reachable |
| Informada.Voraz | busqueda/informada.py:16-51 | returns None exactly when no goal is reachable from the initial state; a node returned is a goal on a path from the new root |
| Informada.AEstrella | busqueda/informada.py:55-90 | returns None exactly when no goal is reachable from the initial state; a node returned is a goal on a path from the new root |
| Informada.SmaEstrella | busqueda/informada.py:191-232 | a node returned is a goal on a path from the new root |
| Informada.LimiteEfectivo | busqueda/informada.py:102-103 | a limit at or below zero becomes `infinito`; a positive one is kept |
| Informada.ValorNodo | busqueda/informada.py:104-105 | a node's value is one of its goals' values and no larger than any of them |
| Informada.ValorCrece | busqueda/informada.py:104-105 | a node's value does not change when the tree grows |
| Informada.HalladoCrece | busqueda/informada.py:117-120 | a goal found within the limit stays found when the tree grows |
| Informada.AEstrellaIterativa | busqueda/informada.py:94-123 | a node valued over the limit fails with its value; a goal within it is returned with the limit; a dead end fails with the limit (as written) or `infinito` (corrected). A success is a goal within the limit in the same tree; a failure reports a limit at or above the current one (strictly above when corrected), or `infinito` |
| Informada.AIterHijos | busqueda/informada.py:112-123 | the first success is returned with the limit. Otherwise the limit returned is at most `infinito` and not below the current limit (strictly above when corrected), or it is `infinito` |
| Informada.AIterHijo | busqueda/informada.py:113-122 | a child of an explored state is skipped; a searched child's success is a goal within the limit, and its failure reports a limit not below the current one |
| Informada.CotaInicial | busqueda/informada.py:130-131 | the first limit is one of the initial state's goal heuristics and no larger than any of them |
| Informada.IdaRonda | busqueda/informada.py:133-135 | a round's success is a goal within the limit on a path from the root. A failure reports a limit not below the current one. On a dead-end initial state the first round fails with the same limit (as written) or `infinito` (corrected) |
| Informada.IdaBucle | busqueda/informada.py:127-139 | a success is a goal on a path from the root, found within the final limit. Stopping before running out of rounds means the limit is `infinito`. When corrected, each round raises the limit. On a dead-end initial state the rounds run out as written, and the corrected search stops |
| Informada.IdaEstrella | busqueda/informada.py:127-139 | a node returned is a goal on a path from the root; on a dead-end initial state no number of rounds ends the search |
| Informada.IdaEstrellaCorregida | busqueda/informada.py:127-139 | a node returned is a goal on a path from the root; on a dead-end initial state the search ends with None in one round |
| Informada.CallejonSinFin | busqueda/informada.py:110-111 | a concrete problem whose initial state is a dead end with no reachable goal, on which `IdaEstrella` never ends |
| Recursiva.RellevaEstable | busqueda/informada.py:165-185 | while `_brpm_recursiva` changes only children lists and `alfa`, every old node keeps its root and stays well built |
| Recursiva.CambiaAlfa | busqueda/informada.py:184 | assigning a node's `alfa` keeps the arena well built and the tree under `nodo` as it was |
| Recursiva.FamiliaColgado | busqueda/informada.py:165-166 | linking a new childless node under a tree node keeps the tree: children come after their parents and point back to them |
| Recursiva.Enganchado | busqueda/informada.py:163-166 | a child built for an action of a tree node can be linked under it; the arena stays well built and only grows |
| Recursiva.Maximo | busqueda/informada.py:167-168 | `max` returns an element of the list and nothing in the list is larger |
| Recursiva.Menor | busqueda/informada.py:182 | `min` returns one of its two arguments and neither is smaller |
| Recursiva.MenorAlfa | busqueda/grafos_simple.py:180-183 | the least `alfa` belongs to one of the nodes, and no node's `alfa` is smaller |
| Recursiva.MaximoHeredado | busqueda/informada.py:167-169 | a linked child's `alfa` is at least the parent's `alfa` and at least every goal's value. It is either the parent's `alfa` or one of those values |
| Recursiva.ComparaAlfa | busqueda/grafos_simple.py:150-183 | under the metric `alfa`, repeating the comparison once per goal decides the same as comparing once |
| Recursiva.EscogeAlfa | busqueda/grafos_simple.py:150-183 | under the metric `alfa`, the scan over all goals picks the same child as a scan over one goal |
| Recursiva.AlfaMenor | busqueda/grafos_simple.py:146-194 | `hijo_mejor(metrica='alfa')` returns one of the children, and no child has a smaller `alfa` |
| Recursiva.Destinos | busqueda/informada.py:161-164 | the states linked from a node number at most its actions |
| Recursiva.DestinosSon | busqueda/informada.py:161-164 | a state is linked exactly when some action of the node leads to it and it is not explored |
| Recursiva.Engancha | busqueda/informada.py:165-169 | the unlinked child gets the node as parent and becomes its last child. Its `alfa` is the larger of the parent's `alfa` and its largest goal value; the tree stays well built |
| Recursiva.EnlazaUno | busqueda/informada.py:162-169 | one node is always built. It is linked as the node's last child, with the inherited `alfa`, exactly when its state is not explored; no other old node changes |
| Recursiva.EnlazaHijos | busqueda/informada.py:161-169 | the node gains as children, in order, one node per action whose target is not explored, each with the inherited `alfa`. No other old node changes |
| Recursiva.Alternativa | busqueda/informada.py:177-183 | the tree comes back unchanged. The bound is `limite` when the best child is the only child; otherwise it is the smaller of `limite` and the least `alfa` among the other children |
| Recursiva.MejorOtro | busqueda/informada.py:179-182 | the bound is `limite` with no children left, and otherwise the smaller of `limite` and the least `alfa` of the children |
| Recursiva.EligeMejor | busqueda/informada.py:174-183 | the chosen node is a child of least `alfa`. The round fails exactly when that `alfa` is over the limit; otherwise the bound for the child is the one `Alternativa` states. The tree is unchanged |
| Recursiva.RondaBrpm | busqueda/informada.py:172-187 | a goal returned has a path from the node's root. When the round fails, the failure reports the least `alfa` of the children, which is above the limit. Nothing up to the node changes |
| Recursiva.BrpmRecursiva | busqueda/informada.py:152-187 | the state joins the explored set. A goal node is returned with the effective limit, and a node without actions fails with it. Any other failure reports a limit above the effective one, or `infinito`. A goal returned has a path from the root. Nodes before `nodo` do not change, and `nodo` only gains children |
| Recursiva.RecursivaPrimeroMejor | busqueda/informada.py:143-149 | the new root is the `crea_nodo_raiz` node. A goal initial state is returned at once, and a dead-end one gives None. A goal returned has a path from the root, and a None that did not run out of rounds comes with a bound at or above `infinito` |

## Left out

- Printing and interaction are not modelled: `muestra_solucion`, `ver_tabla_verdad`, `__str__`/`__repr__`, the `__main__` blocks with their `input()`/`print` loops, and the printed demos. Their fixtures appear only as concrete scenarios (`Grafos.RutaEjemplo`, `Agentes.DemoTabla`, `Motor.DemoRazonamiento`, `Inferencia.DemoSilogismo`, …).
- `redesbayesianas/` is not part of this model. It is floating-point arithmetic and random sampling.
- `deduccion` (logica/proposiciones/inferencia.py:136-152) is a stub with no behaviour to model.
- Object identity is not modelled. `Estado` and `Nodo` define no `__eq__`, so Python compares objects, while the model compares states by name. The two agree while each name belongs to one state object.
- The mutable default `hijos=[]` of `Nodo` is shared among the nodes that use it. The model gives every node its own list of children.
- A `raise` of a string literal raises a `TypeError` whatever the message. Such errors become preconditions, such as the non-empty tables of the agent constructors, or a None result.
- `Grafos.NuevoProblema`: a `Problema` of `busqueda/grafos.py` built without `costes` reads `self.acciones` before assigning it and fails, so the model requires the costs.
- A `KeyError` from a missing heuristic row or goal entry, and the `ValueError` of `min`/`max` on a problem without goals, become preconditions (`Informada.Tasado`, `p.objetivos != []`).
- `Motor.EvaluarLocal` and the other evaluations require every variable to be assigned. The source raises a `KeyError` otherwise, except where short-circuiting skips the lookup; the model does not follow those exceptions.
- `Inferencia.TablaVerdad`: the order of the symbols collected from a `frozenset` is not specified by Python. The model picks one order with a ghost choice, so `Inferencia.TablaVerdad` is a ghost function, and `Inferencia.OrdenIndiferente` proves the verdict does not depend on that order.
- `Informada.SacarSiguiente` leaves out the `'coste'` branch of `sacar_siguiente`: it compares the bound method `coste_camino` and fails, so the model requires another metric.
- `Informada.IdaEstrella`, `Informada.IdaEstrellaCorregida`, `Recursiva.RecursivaPrimeroMejor`: the `while True` loops of `ida_estrella` (busqueda/informada.py:132) and of `_brpm_recursiva` (busqueda/informada.py:172), which `recursiva_primero_mejor` calls, are given a number of rounds (`fuel`), and the result says when it ran out (`agotado`). The model promises neither termination nor completeness for them.
- `Recursiva.BrpmRecursiva` does not promise a larger limit when a child is a dead end. Such a child reports the limit it was given, re-entering a node can append duplicate children, and ties between children can repeat a round forever. These are behaviours of the source that the fuel bound accepts.
- `Informada.SmaEstrella` proves only that a returned node is a goal reached from the root. Dropped nodes can hide the only route to a goal, so it does not promise that None means no goal is reachable.
- `Informada.SmaEstrella`: `maximo_nodos` is a `nat`. A negative cap is not modelled.
- `a_estrella_iterativa` called with no node or no explored set creates both itself. The model always passes them, as `ida_estrella` does.
- Integers are unbounded in both Python and Dafny, so no wrap-around is modelled.
- `NoInformada.ProfundidadIterativaCoste` requires `paso != 0`. In the source, `range(1, limite + 1, paso)` raises a `ValueError` for a zero step; the model does not return that error.
- Default arguments are not modelled as defaults: the model always passes `accion_basica` (default `""` in `agentes.py`, `busqueda/agentes/tabla.py` and `busqueda/agentes/simple.py`) and the `limite=99999`, `paso=1` of `profundidad_iterativa_coste` explicitly. The default values are ordinary arguments of the model.
- `Motor.Evaluar`: `evaluar(self, **asignaciones)` receives each row as keyword arguments, so a variable named `self` clashes with the method's own parameter and raises a `TypeError`. The model evaluates such a variable like any other.

## Findings

| source | as written | input that shows it | evidently intended | confidence | as-written member | corrected member |
|---|---|---|---|---|---|---|
| busqueda/grafos.py:317 | `expandir` gives a child the cost of the expanded node's parent plus the action's cost | on the demo map, expanding Sevilla (a child of the root Faro) gives Madrid cost 534, where `coste_camino` is 734 | the child's cost is the expanded node's own cost plus the action's cost, so it equals `coste_camino` | high (not executed) | Grafos.CosteAbueloFalla | Grafos.HijosCorregidosExactos |
| busqueda/agentes/modelos.py:74-84 | a reset restores `estado` and `accion` but keeps `ult_accion` | from `sin-moneda`/`pedir-moneda`, the percepts `moneda`, `a4`: after the miss the agent answers `pedir-moneda` to every later percept | the reset restores `ult_accion` as well, as `agentes.py` does | medium (not executed) | Modelos.AtascoPermanente | Modelos.RecuperaCorregido |
| busqueda/grafos_simple.py:54-59 | default heuristics are keyed by the goal object, but every lookup uses `objetivo.nombre` | any problem built without `heuristicas`: no default entry can ever be found | the defaults are keyed by `objetivo.nombre` | high (not executed) | GrafosSimple.DefectoInalcanzable | GrafosSimple.DefectoCorregido |
| busqueda/informada.py:110-111 | a node without actions fails with the current limit | an initial state with no actions, not a goal, with a positive heuristic (`Informada.CALLEJON`): `ida_estrella` repeats the same round forever | a dead end reports `infinito`, so the search ends with None | high (not executed) | Informada.CallejonSinFin | Informada.IdaEstrellaCorregida |
