/**
 * Entailment by truth table: `tabla_verdad` of `logica/proposiciones/inferencia.py`
 * and its near-duplicate in `logica/inferencia.py`. Both run the same
 * procedure: check the arguments, collect the variables, convert premises
 * and conclusion into propositions, then enumerate every assignment of the
 * symbols by binary recursion, popping the last symbol each time.
 */
module Inferencia {
  import opened Tipos
  import opened Motor

  /** Why a call fails. */
  datatype Error =
    | FaltaConclusion   // `ValueError("Debe indicar una conclusión")`: the conclusion is falsy
    | SinVariables      // `AttributeError`: a str/bool/other value has no `variables()`
    | NoConvertible     // `ValueError` of `_crea_proposicion`

  datatype Resultado = Ok(valor: bool) | Falla(error: Error)

  /** Python truthiness. A `Proposicion` defines neither `__bool__` nor `__len__`, so it is always true. */
  predicate Veraz(v: Valor)
  {
    match v
    case Proposicion(_) => true
    case Cadena(s) => s != ""
    case Booleano(b) => b
    case Otro(veraz) => veraz
  }

  /** Every premise and the conclusion are already propositions (and so have a `variables()` method). */
  predicate SonProposiciones(premisas: seq<Valor>, conclusion: Valor)
  {
    conclusion.Proposicion? && forall i :: 0 <= i < |premisas| ==> premisas[i].Proposicion?
  }

  // ---------------------------------------------------------------------------
  // dict(modelo)
  // ---------------------------------------------------------------------------

  /** `dict(modelo)`: a list of (name, value) pairs as a row; a later pair for the same name wins. */
  function Dict(ms: seq<(string, bool)>): (r: Fila)
    ensures r.Keys == set p | p in ms :: p.0
    decreases |ms|
  {
    if ms == [] then map[]
    else
      var ult := ms[|ms| - 1];
      assert ms == ms[..|ms| - 1] + [ult];
      Dict(ms[..|ms| - 1])[ult.0 := ult.1]
  }

  /** In `dict(modelo)` every name has the value of its last pair. */
  lemma {:induction false} DictUltimoGana(ms: seq<(string, bool)>, i: nat)
    requires i < |ms| && forall j :: i < j < |ms| ==> ms[j].0 != ms[i].0
    ensures ms[i].0 in Dict(ms) && Dict(ms)[ms[i].0] == ms[i].1
    decreases |ms|
  {
    if i < |ms| - 1 {
      DictUltimoGana(ms[..|ms| - 1], i);
    }
  }

  /** Appending a pair to the model sets that name in the row. */
  lemma DictAgrega(ms: seq<(string, bool)>, k: string, v: bool)
    ensures Dict(ms + [(k, v)]) == Dict(ms)[k := v]
  {
    assert (ms + [(k, v)])[..|ms|] == ms;
  }

  // ---------------------------------------------------------------------------
  // The recursion
  // ---------------------------------------------------------------------------

  /** Every variable of the premises and of the conclusion has a value in `claves`. */
  predicate Cubiertas(kb: seq<Formula>, alfa: Formula, claves: set<string>)
  {
    VariablesLista(kb) + Variables(alfa) <= claves
  }

  /** The row assigns every variable, and if it satisfies all the premises it satisfies the conclusion. */
  predicate Satisface(kb: seq<Formula>, alfa: Formula, fila: Fila)
  {
    Cubiertas(kb, alfa, fila.Keys) && (Todas(kb, fila) ==> Evaluar(alfa, fila))
  }

  /**
   * The recursive part of `tabla_verdad`, once the knowledge base `kb` and
   * the conclusion `alfa` are built. With no symbols left: the conclusion's
   * value under `dict(modelo)` if every premise holds there, else True.
   * Otherwise the last symbol is popped, the model is extended with it True
   * and with it False, and both verdicts must hold. A variable with no value
   * raises `KeyError` in the source; here that is excluded by the precondition.
   */
  function Comprueba(kb: seq<Formula>, alfa: Formula, simbolos: seq<string>, modelo: seq<(string, bool)>): bool
    requires Cubiertas(kb, alfa, ConjuntoDe(simbolos) + Dict(modelo).Keys)
    decreases |simbolos|
  {
    if simbolos == [] then
      var asignaciones := Dict(modelo);
      if Todas(kb, asignaciones) then Evaluar(alfa, asignaciones) else true
    else
      var simbolo := simbolos[|simbolos| - 1];
      var resto := simbolos[..|simbolos| - 1];
      assert ConjuntoDe(simbolos) == ConjuntoDe(resto) + {simbolo};
      DictAgrega(modelo, simbolo, true);
      DictAgrega(modelo, simbolo, false);
      var tablaT := Comprueba(kb, alfa, resto, modelo + [(simbolo, true)]);
      var tablaF := Comprueba(kb, alfa, resto, modelo + [(simbolo, false)]);
      tablaT && tablaF
  }

  /** Every assignment of exactly the names `nombres`, laid over `base`, satisfies the argument. */
  ghost predicate TodasSatisfacen(kb: seq<Formula>, alfa: Formula, base: Fila, nombres: set<string>)
  {
    forall m: Fila :: m.Keys == nombres ==> Satisface(kb, alfa, base + m)
  }

  /** Laying `m` over `base` after fixing `s` in `base`: the value of `m` wins if it has one. */
  lemma Superpone(base: Fila, m: Fila, s: string, b: bool)
    ensures s in m ==> base[s := b] + m == base + m
    ensures s !in m ==> base[s := b] + m == base + m[s := b]
    ensures s in m ==> base[s := m[s]] + Sin(m, s) == base + m
  {
  }

  /** One more name: every assignment of `nombres + {s}` works exactly when both values of `s`, fixed in `base`, work for `nombres`. */
  lemma UnNombreMas(kb: seq<Formula>, alfa: Formula, base: Fila, nombres: set<string>, s: string)
    ensures TodasSatisfacen(kb, alfa, base, nombres + {s}) <==>
      TodasSatisfacen(kb, alfa, base[s := true], nombres) && TodasSatisfacen(kb, alfa, base[s := false], nombres)
  {
    if TodasSatisfacen(kb, alfa, base[s := true], nombres) && TodasSatisfacen(kb, alfa, base[s := false], nombres) {
      forall m: Fila | m.Keys == nombres + {s} ensures Satisface(kb, alfa, base + m) {
        Superpone(base, m, s, true);
        if s in nombres {
          assert Satisface(kb, alfa, base[s := true] + m);
        } else {
          var m' := Sin(m, s);
          assert m'.Keys == nombres;
          if m[s] {
            assert Satisface(kb, alfa, base[s := true] + m');
          } else {
            assert Satisface(kb, alfa, base[s := false] + m');
          }
        }
      }
    }
    if TodasSatisfacen(kb, alfa, base, nombres + {s}) {
      FijaUno(kb, alfa, base, nombres, s, true);
      FijaUno(kb, alfa, base, nombres, s, false);
    }
  }

  /** If every assignment of `nombres + {s}` works, so does every assignment of `nombres` once `s` is fixed to `b`. */
  lemma FijaUno(kb: seq<Formula>, alfa: Formula, base: Fila, nombres: set<string>, s: string, b: bool)
    requires TodasSatisfacen(kb, alfa, base, nombres + {s})
    ensures TodasSatisfacen(kb, alfa, base[s := b], nombres)
  {
    forall m': Fila | m'.Keys == nombres ensures Satisface(kb, alfa, base[s := b] + m') {
      Superpone(base, m', s, b);
      var m := if s in nombres then m' else m'[s := b];
      assert m.Keys == nombres + {s};
      assert Satisface(kb, alfa, base + m);
    }
  }

  /**
   * What the recursion computes: the verdict is True exactly when every way
   * of giving values to the remaining symbols, laid over `dict(modelo)`,
   * satisfies the argument. Repeated symbols and symbols already in the model
   * do not change this.
   */
  lemma {:induction false} ComprobarSemantica(kb: seq<Formula>, alfa: Formula, simbolos: seq<string>, modelo: seq<(string, bool)>)
    requires Cubiertas(kb, alfa, ConjuntoDe(simbolos) + Dict(modelo).Keys)
    ensures Comprueba(kb, alfa, simbolos, modelo) <==> TodasSatisfacen(kb, alfa, Dict(modelo), ConjuntoDe(simbolos))
    decreases |simbolos|
  {
    var base := Dict(modelo);
    if simbolos == [] {
      forall m: Fila | m.Keys == ConjuntoDe(simbolos) ensures base + m == base {
        assert m == map[];
      }
      var vacia: Fila := map[];
      assert vacia.Keys == ConjuntoDe(simbolos);
      assert base + vacia == base;
    } else {
      var s := simbolos[|simbolos| - 1];
      var resto := simbolos[..|simbolos| - 1];
      assert ConjuntoDe(simbolos) == ConjuntoDe(resto) + {s};
      DictAgrega(modelo, s, true);
      DictAgrega(modelo, s, false);
      ComprobarSemantica(kb, alfa, resto, modelo + [(s, true)]);
      ComprobarSemantica(kb, alfa, resto, modelo + [(s, false)]);
      UnNombreMas(kb, alfa, base, ConjuntoDe(resto), s);
    }
  }

  // ---------------------------------------------------------------------------
  // tabla_verdad
  // ---------------------------------------------------------------------------

  /** The symbols the recursion starts from: the given `simbolos`, else the given `variables`, else the argument's variables in some order. */
  ghost function Simbolos(arg: Razonamiento, variables: seq<string>, simbolos: Option<seq<string>>): seq<string>
  {
    if simbolos.Some? then simbolos.value
    else if variables != [] then variables
    else Orden(VariablesRazonamiento(arg))
  }

  /** The precondition of the recursion: when the argument can be built, its variables get values. */
  ghost predicate Cubre(premisas: seq<Valor>, conclusion: Valor, variables: seq<string>, simbolos: Option<seq<string>>,
                        modelo: seq<(string, bool)>)
  {
    var arg := CreaRazonamiento(premisas, conclusion);
    arg.Some? ==>
      Cubiertas(arg.value.premisas, arg.value.conclusion,
                ConjuntoDe(Simbolos(arg.value, variables, simbolos)) + Dict(modelo).Keys)
  }

  /**
   * `tabla_verdad(*premisas, conclusion=..., variables=..., simbolos=..., modelo=...)`.
   * `variables` is `[]` for both `None` and the empty list (the source only
   * tests its truthiness), `modelo` is `[]` for `None`. The result is an error
   * exactly in the three cases the source raises, and otherwise the verdict
   * says that every assignment of the symbols extending `dict(modelo)`
   * satisfies the argument.
   */
  ghost function TablaVerdad(premisas: seq<Valor>, conclusion: Valor, variables: seq<string>,
                             simbolos: Option<seq<string>>, modelo: seq<(string, bool)>): (r: Resultado)
    requires Cubre(premisas, conclusion, variables, simbolos, modelo)
    ensures r == Falla(FaltaConclusion) <==> !Veraz(conclusion)
    ensures r == Falla(SinVariables) <==>
      Veraz(conclusion) && variables == [] && !SonProposiciones(premisas, conclusion)
    ensures r == Falla(NoConvertible) <==>
      Veraz(conclusion) && (variables != [] || SonProposiciones(premisas, conclusion))
      && CreaRazonamiento(premisas, conclusion).None?
    ensures r.Ok? ==>
      var arg := CreaRazonamiento(premisas, conclusion).value;
      r.valor == TodasSatisfacen(arg.premisas, arg.conclusion, Dict(modelo), ConjuntoDe(Simbolos(arg, variables, simbolos)))
  {
    if !Veraz(conclusion) then Falla(FaltaConclusion)
    else if variables == [] && !SonProposiciones(premisas, conclusion) then Falla(SinVariables)
    else
      match CreaRazonamiento(premisas, conclusion)
      case None => Falla(NoConvertible)
      case Some(arg) =>
        var simbolos' := Simbolos(arg, variables, simbolos);
        ComprobarSemantica(arg.premisas, arg.conclusion, simbolos', modelo);
        Ok(Comprueba(arg.premisas, arg.conclusion, simbolos', modelo))
  }

  // ---------------------------------------------------------------------------
  // Agreement with Razonamiento.es_valido
  // ---------------------------------------------------------------------------

  /** Checking the total assignments of a covering set of names is the same as checking every covering assignment. */
  lemma Restringe(arg: Razonamiento, nombres: set<string>)
    requires VariablesRazonamiento(arg) <= nombres
    ensures TodasSatisfacen(arg.premisas, arg.conclusion, map[], nombres) <==> (forall m: Fila :: VariablesRazonamiento(arg) <= m.Keys ==>
                Todas(arg.premisas, m) ==> Evaluar(arg.conclusion, m))
  {
    var kb, alfa := arg.premisas, arg.conclusion;
    if TodasSatisfacen(kb, alfa, map[], nombres) {
      forall m: Fila | VariablesRazonamiento(arg) <= m.Keys ensures Todas(kb, m) ==> Evaluar(alfa, m) {
        var m' := map k | k in nombres :: if k in m then m[k] else false;
        assert map[] + m' == m';
        assert Satisface(kb, alfa, m');
        ListaLocal(kb, m, m');
        EvaluarLocal(alfa, m, m');
      }
    } else {
      var m: Fila :| m.Keys == nombres && !Satisface(kb, alfa, map[] + m);
      assert map[] + m == m;
    }
  }

  /** The sequence of values holding the given propositions. */
  function Proposiciones(fs: seq<Formula>): (r: seq<Valor>)
    ensures |r| == |fs| && forall i :: 0 <= i < |fs| ==> r[i] == Proposicion(fs[i])
  {
    seq(|fs|, i requires 0 <= i < |fs| => Proposicion(fs[i]))
  }

  /**
   * Called on propositions with the default `variables`, `simbolos` and
   * `modelo`, `tabla_verdad` returns the verdict of `Razonamiento.es_valido`:
   * True exactly when the premises entail the conclusion.
   */
  lemma TablaVerdadEsValido(kb: seq<Formula>, alfa: Formula)
    ensures Cubre(Proposiciones(kb), Proposicion(alfa), [], None, [])
    ensures TablaVerdad(Proposiciones(kb), Proposicion(alfa), [], None, []) == Ok(EsValido(Razonamiento(kb, alfa)))
  {
    var ps := Proposiciones(kb);
    var fs := CreaProposiciones(ps);
    assert fs.Some?;
    assert fs.value == kb;
    var arg := Razonamiento(kb, alfa);
    assert CreaRazonamiento(ps, Proposicion(alfa)) == Some(arg);
    var vs := Orden(VariablesRazonamiento(arg));
    assert Dict([]) == map[];
    Restringe(arg, ConjuntoDe(vs));
    ValidoSemantico(arg);
  }

  /**
   * With an explicit list of variables that covers the argument, premises
   * and conclusion may also be names and constants: the verdict is again that
   * of `es_valido` on the argument they build.
   */
  lemma TablaVerdadConVariables(premisas: seq<Valor>, conclusion: Valor, variables: seq<string>)
    requires Veraz(conclusion) && variables != []
    requires CreaRazonamiento(premisas, conclusion).Some?
    requires VariablesRazonamiento(CreaRazonamiento(premisas, conclusion).value) <= ConjuntoDe(variables)
    ensures Cubre(premisas, conclusion, variables, None, [])
    ensures TablaVerdad(premisas, conclusion, variables, None, [])
         == Ok(EsValido(CreaRazonamiento(premisas, conclusion).value))
  {
    var arg := CreaRazonamiento(premisas, conclusion).value;
    assert Dict([]) == map[];
    Restringe(arg, ConjuntoDe(variables));
    ValidoSemantico(arg);
  }

  /** The order in which the symbols are listed does not change the verdict. */
  lemma OrdenIndiferente(kb: seq<Formula>, alfa: Formula, xs: seq<string>, ys: seq<string>, modelo: seq<(string, bool)>)
    requires ConjuntoDe(xs) == ConjuntoDe(ys)
    requires Cubiertas(kb, alfa, ConjuntoDe(xs) + Dict(modelo).Keys)
    ensures Comprueba(kb, alfa, xs, modelo) == Comprueba(kb, alfa, ys, modelo)
  {
    ComprobarSemantica(kb, alfa, xs, modelo);
    ComprobarSemantica(kb, alfa, ys, modelo);
  }

  // ---------------------------------------------------------------------------
  // The demo
  // ---------------------------------------------------------------------------

  /** The demo argument: `P >> Q, Q >> R, R >> S` with conclusion `P >> S`. */
  function Silogismo(): (arg: Razonamiento)
    ensures |arg.premisas| == 3
  {
    var p, q, r, s := Variable("P"), Variable("Q"), Variable("R"), Variable("S");
    Razonamiento([Implica(p, q), Implica(q, r), Implica(r, s)], Implica(p, s))
  }

  /** The demo argument is valid. */
  lemma SilogismoValido()
    ensures EsValido(Silogismo())
  {
    var arg := Silogismo();
    ValidoSemantico(arg);
    forall m: Fila | VariablesRazonamiento(arg) <= m.Keys
      ensures Todas(arg.premisas, m) ==> Evaluar(arg.conclusion, m)
    {
      var kb := arg.premisas;
      assert kb[1..][1..][1..] == [];
    }
  }

  /** `tabla_verdad(P >> Q, Q >> R, R >> S, conclusion=P >> S)` answers True. */
  lemma DemoSilogismo()
    ensures TablaVerdad(Proposiciones(Silogismo().premisas), Proposicion(Silogismo().conclusion), [], None, []) == Ok(true)
  {
    TablaVerdadEsValido(Silogismo().premisas, Silogismo().conclusion);
    SilogismoValido();
  }
}
