/**
 * The three rational agents of `agentes.py` (and of `agentes_simple.py`,
 * which holds the same classes): a table agent that keeps the comma-joined
 * history of its percepts, a stateless simple-reflex agent, and a
 * model-based agent that is a state machine over (state, last action, percept).
 */
module Agentes {
  import opened Tipos

  // ---------------------------------------------------------------------------
  // Table agent
  // ---------------------------------------------------------------------------

  /** The history once percept `p` is added: a comma separates it from a non-empty history. */
  function Extender(historial: string, p: string): string
  {
    if |historial| != 0 then historial + "," + p else p
  }

  /** The comma-joined list of percepts, as the table keys spell a percept sequence. */
  function Unir(ps: seq<string>): string
  {
    if |ps| == 0 then "" else if |ps| == 1 then ps[0] else Unir(ps[..|ps| - 1]) + "," + ps[|ps| - 1]
  }

  /** The table agent keeps a history that is empty or one of the table's keys. */
  predicate HistorialValido(acciones: map<string, string>, historial: string)
  {
    historial == "" || historial in acciones
  }

  /**
   * One call of `AgenteTabla.actuar`: the action returned and the history afterwards.
   * An empty percept changes nothing; otherwise the extended history is looked up
   * and, on a miss, forgotten.
   */
  function PasoTabla(acciones: map<string, string>, historial: string, percepcion: string, basica: string): (r: (string, string))
    ensures HistorialValido(acciones, historial) ==> HistorialValido(acciones, r.1)
    ensures percepcion != "" ==> HistorialValido(acciones, r.1)
    ensures r.1 != "" && r.1 != historial ==> r.1 in acciones && r.1 == Extender(historial, percepcion) && r.0 == acciones[r.1]
    ensures r.0 == basica || r.0 in acciones.Values
    ensures percepcion == "" ==> r == (basica, historial)
    ensures var h := Extender(historial, percepcion);
      percepcion != "" && h in acciones ==> r == (acciones[h], h)
    ensures var h := Extender(historial, percepcion);
      percepcion != "" && h !in acciones ==> r == (basica, "")
  {
    if percepcion == "" then (basica, historial)
    else
      var h := Extender(historial, percepcion);
      if h in acciones then (acciones[h], h) else (basica, "")
  }

  /** Feeds a sequence of percepts to the table agent: the actions it returns and its final history. */
  function EjecutarTabla(acciones: map<string, string>, historial: string, ps: seq<string>, basica: string): (seq<string>, string)
    decreases |ps|
  {
    if ps == [] then ([], historial)
    else
      var paso := PasoTabla(acciones, historial, ps[0], basica);
      var resto := EjecutarTabla(acciones, paso.1, ps[1..], basica);
      ([paso.0] + resto.0, resto.1)
  }

  /** A valid history stays valid over any run of percepts, and one action comes out per percept. */
  lemma {:induction false} EjecutarTablaValido(acciones: map<string, string>, historial: string, ps: seq<string>, basica: string)
    requires HistorialValido(acciones, historial)
    ensures HistorialValido(acciones, EjecutarTabla(acciones, historial, ps, basica).1)
    ensures |EjecutarTabla(acciones, historial, ps, basica).0| == |ps|
    decreases |ps|
  {
    if ps != [] {
      EjecutarTablaValido(acciones, PasoTabla(acciones, historial, ps[0], basica).1, ps[1..], basica);
    }
  }

  /** Extending the joined list of non-empty percepts by `p` joins `p` on at the end. */
  lemma {:induction false} ExtenderUne(ps: seq<string>, p: string)
    requires forall i :: 0 <= i < |ps| ==> ps[i] != ""
    ensures Extender(Unir(ps), p) == Unir(ps + [p])
  {
    if |ps| > 0 {
      assert (ps + [p])[..|ps|] == ps;
      UnirNoVacio(ps);
    }
  }

  /** The join of a non-empty list of non-empty percepts is not empty. */
  lemma {:induction false} UnirNoVacio(ps: seq<string>)
    requires |ps| > 0 && forall i :: 0 <= i < |ps| ==> ps[i] != ""
    ensures Unir(ps) != ""
  {
  }

  /**
   * The history is the joined window of percepts since the last reset: if it
   * spells the window `ps`, then after a non-empty percept `p` it spells
   * `ps + [p]` and answers the table's action when that window is a key (a hit),
   * and is empty again with the default action when it is not (a miss).
   */
  lemma HistorialEsVentana(acciones: map<string, string>, ps: seq<string>, p: string, basica: string)
    requires forall i :: 0 <= i < |ps| ==> ps[i] != ""
    requires p != ""
    ensures var r := PasoTabla(acciones, Unir(ps), p, basica);
      Unir(ps + [p]) in acciones ==> r == (acciones[Unir(ps + [p])], Unir(ps + [p]))
    ensures var r := PasoTabla(acciones, Unir(ps), p, basica);
      Unir(ps + [p]) !in acciones ==> r == (basica, "")
  {
    ExtenderUne(ps, p);
  }

  /** The object `AgenteTabla`, whose `actuar` updates the percept history in place. */
  class AgenteTabla {
    const acciones: map<string, string>
    var percepciones: string

    constructor (acciones: map<string, string>)
      ensures this.acciones == acciones && percepciones == ""
    {
      this.acciones := acciones;
      percepciones := "";
    }

    method Actuar(percepcion: string, accionBasica: string) returns (accion: string)
      modifies this
      ensures (accion, percepciones) == PasoTabla(acciones, old(percepciones), percepcion, accionBasica)
    {
      if percepcion == "" {
        return accionBasica;
      }
      ghost var previo := percepciones;
      if |percepciones| != 0 {
        percepciones := percepciones + ",";
      }
      percepciones := percepciones + percepcion;
      assert percepciones == Extender(previo, percepcion);
      if percepciones in acciones {
        return acciones[percepciones];
      }
      percepciones := "";
      return accionBasica;
    }
  }

  // ---------------------------------------------------------------------------
  // Simple-reflex agent
  // ---------------------------------------------------------------------------

  /** `AgenteReactivoSimple`: it holds only its rules, so it is a value. */
  datatype AgenteReactivoSimple = AgenteReactivoSimple(reglas: map<string, string>)
  {
    /** `actuar`: the rule for the percept, or the default action for an empty or unknown percept. */
    function Actuar(percepcion: string, accionBasica: string): (accion: string)
      ensures percepcion != "" && percepcion in reglas ==> accion == reglas[percepcion]
      ensures percepcion == "" || percepcion !in reglas ==> accion == accionBasica
    {
      if percepcion == "" then accionBasica
      else if percepcion in reglas then reglas[percepcion]
      else accionBasica
    }
  }

  /** A table agent with an empty history answers every percept as a reflex agent over the same table. */
  lemma TablaVaciaEsReactiva(acciones: map<string, string>, percepcion: string, basica: string)
    ensures PasoTabla(acciones, "", percepcion, basica).0 == AgenteReactivoSimple(acciones).Actuar(percepcion, basica)
  {
  }

  // ---------------------------------------------------------------------------
  // Model-based agent
  // ---------------------------------------------------------------------------

  /** The fixed part of `AgenteBasadoModelos`: transition model, rules and initial values. */
  datatype Configuracion = Configuracion(
    modelo: map<(string, string, string), string>,
    reglas: map<string, string>,
    estadoInicial: string,
    accionInicial: string)

  /** The mutable part: `estado`, `accion` (None until the first reset) and `ult_accion`. */
  datatype Memoria = Memoria(estado: string, accion: Option<string>, ultAccion: string)

  /** The memory after a reset: every field back to its initial value. */
  function Reinicio(c: Configuracion): Memoria
  {
    Memoria(c.estadoInicial, Some(c.accionInicial), c.accionInicial)
  }

  /**
   * The agent's memory is coherent when it is the initial state with the initial
   * action, or a state that has a rule and whose rule was the last action.
   */
  predicate Coherente(c: Configuracion, m: Memoria)
  {
    (m.estado == c.estadoInicial && m.ultAccion == c.accionInicial)
    || (m.estado in c.reglas && m.ultAccion == c.reglas[m.estado])
  }

  /** One call of `AgenteBasadoModelos.actuar`: the action returned and the new memory. */
  function PasoModelo(c: Configuracion, m: Memoria, percepcion: string): (r: (string, Memoria))
    ensures percepcion == "" ==> r == (c.accionInicial, m)
    ensures percepcion != "" ==> r.0 == r.1.ultAccion && Coherente(c, r.1)
    ensures percepcion != "" && r.1 != Reinicio(c) ==>
      (m.estado, m.ultAccion, percepcion) in c.modelo && r.1.estado == c.modelo[(m.estado, m.ultAccion, percepcion)]
      && r.1.estado in c.reglas && r.0 == c.reglas[r.1.estado] && r.1.accion == m.accion
    ensures var k := (m.estado, m.ultAccion, percepcion);
      percepcion != "" && k in c.modelo && c.modelo[k] in c.reglas ==>
      r == (c.reglas[c.modelo[k]], Memoria(c.modelo[k], m.accion, c.reglas[c.modelo[k]]))
    ensures var k := (m.estado, m.ultAccion, percepcion);
      percepcion != "" && (k !in c.modelo || c.modelo[k] !in c.reglas) ==> r == (c.accionInicial, Reinicio(c))
  {
    if percepcion == "" then (c.accionInicial, m)
    else
      var clave := (m.estado, m.ultAccion, percepcion);
      if clave !in c.modelo then (c.accionInicial, Reinicio(c))
      else
        var estado := c.modelo[clave];
        if estado !in c.reglas then (c.accionInicial, Reinicio(c))
        else (c.reglas[estado], Memoria(estado, m.accion, c.reglas[estado]))
  }

  /** Feeds a sequence of percepts to the model-based agent: its actions and final memory. */
  function EjecutarModelo(c: Configuracion, m: Memoria, ps: seq<string>): (seq<string>, Memoria)
    decreases |ps|
  {
    if ps == [] then ([], m)
    else
      var paso := PasoModelo(c, m, ps[0]);
      var resto := EjecutarModelo(c, paso.1, ps[1..]);
      ([paso.0] + resto.0, resto.1)
  }

  /** Coherence holds from the start and is kept over any run of percepts. */
  lemma {:induction false} EjecutarModeloCoherente(c: Configuracion, m: Memoria, ps: seq<string>)
    requires Coherente(c, m)
    ensures Coherente(c, EjecutarModelo(c, m, ps).1)
    decreases |ps|
  {
    if ps != [] {
      EjecutarModeloCoherente(c, PasoModelo(c, m, ps[0]).1, ps[1..]);
    }
  }

  /** The object `AgenteBasadoModelos`, whose `actuar` updates its state fields in place. */
  class AgenteBasadoModelos {
    const modelo: map<(string, string, string), string>
    const reglas: map<string, string>
    const estadoInicial: string
    const accionInicial: string
    var accion: Option<string>
    var estado: string
    var ultAccion: string

    function Config(): Configuracion
    {
      Configuracion(modelo, reglas, estadoInicial, accionInicial)
    }

    function Mem(): Memoria
      reads this
    {
      Memoria(estado, accion, ultAccion)
    }

    constructor (modelo: map<(string, string, string), string>, reglas: map<string, string>,
                 estadoInicial: string, accionInicial: string)
      ensures Config() == Configuracion(modelo, reglas, estadoInicial, accionInicial)
      ensures Mem() == Memoria(estadoInicial, None, accionInicial)
      ensures Coherente(Config(), Mem())
    {
      this.modelo := modelo;
      this.reglas := reglas;
      this.estadoInicial := estadoInicial;
      this.accionInicial := accionInicial;
      accion := None;
      estado := estadoInicial;
      ultAccion := accionInicial;
    }

    method Actuar(percepcion: string) returns (a: string)
      modifies this
      ensures (a, Mem()) == PasoModelo(Config(), old(Mem()), percepcion)
    {
      if percepcion == "" {
        return accionInicial;
      }
      var clave := (estado, ultAccion, percepcion);
      if clave !in modelo {
        estado := estadoInicial;
        accion := Some(accionInicial);
        ultAccion := accionInicial;
        return accionInicial;
      }
      estado := modelo[clave];
      if estado !in reglas {
        estado := estadoInicial;
        accion := Some(accionInicial);
        ultAccion := accionInicial;
        return accionInicial;
      }
      a := reglas[estado];
      ultAccion := a;
    }
  }

  // ---------------------------------------------------------------------------
  // The vending machines of the demo
  // ---------------------------------------------------------------------------

  const ACCIONES: map<string, string> := map[
    "moneda" := "pedir-codigo",
    "moneda,a1" := "servir-bebida1",
    "moneda,a2" := "servir-bebida2",
    "moneda,a3" := "servir-bebida3",
    "moneda,a1,moneda" := "pedir-codigo",
    "moneda,a2,moneda" := "pedir-codigo",
    "moneda,a3,moneda" := "pedir-codigo",
    "moneda,a1,moneda,a1" := "servir-bebida1",
    "moneda,a1,moneda,a2" := "servir-bebida2",
    "moneda,a1,moneda,a3" := "servir-bebida3",
    "moneda,a2,moneda,a1" := "servir-bebida1",
    "moneda,a2,moneda,a2" := "servir-bebida2",
    "moneda,a2,moneda,a3" := "servir-bebida3",
    "moneda,a3,moneda,a1" := "servir-bebida1",
    "moneda,a3,moneda,a2" := "servir-bebida2",
    "moneda,a3,moneda,a3" := "servir-bebida3"]

  const MODELO: map<(string, string, string), string> := map[
    ("sin-moneda", "pedir-moneda", "moneda") := "con-moneda",
    ("con-moneda", "pedir-codigo", "a1") := "a1-servida",
    ("con-moneda", "pedir-codigo", "a2") := "a2-servida",
    ("con-moneda", "pedir-codigo", "a3") := "a3-servida",
    ("a1-servida", "esperar", "servida") := "sin-moneda",
    ("a2-servida", "esperar", "servida") := "sin-moneda",
    ("a3-servida", "esperar", "servida") := "sin-moneda"]

  const REGLAS: map<string, string> := map[
    "sin-moneda" := "pedir-moneda",
    "con-moneda" := "pedir-codigo",
    "a1-servida" := "esperar",
    "a2-servida" := "esperar",
    "a3-servida" := "esperar"]

  /** `moneda` then `a1` serves drink 1; `moneda` then `a4` waits and forgets the coin. */
  lemma DemoTabla()
    ensures EjecutarTabla(ACCIONES, "", ["moneda", "a1"], "esperar") == (["pedir-codigo", "servir-bebida1"], "moneda,a1")
    ensures EjecutarTabla(ACCIONES, "", ["moneda", "a4"], "esperar") == (["pedir-codigo", "esperar"], "")
  {
    assert PasoTabla(ACCIONES, "", "moneda", "esperar") == ("pedir-codigo", "moneda");
    assert Extender("moneda", "a1") == "moneda,a1";
    assert PasoTabla(ACCIONES, "moneda", "a1", "esperar") == ("servir-bebida1", "moneda,a1");
    assert EjecutarTabla(ACCIONES, "moneda,a1", [], "esperar") == ([], "moneda,a1");
    assert ["moneda", "a1"][1..] == ["a1"] && ["a1"][1..] == [];
    assert EjecutarTabla(ACCIONES, "moneda", ["a1"], "esperar").0 == ["servir-bebida1"];
    assert EjecutarTabla(ACCIONES, "", ["moneda", "a1"], "esperar").0 == ["pedir-codigo", "servir-bebida1"];
    assert Extender("moneda", "a4") == "moneda,a4";
    assert "moneda,a4" !in ACCIONES;
    assert PasoTabla(ACCIONES, "moneda", "a4", "esperar") == ("esperar", "");
    assert ["moneda", "a4"][1..] == ["a4"] && ["a4"][1..] == [];
    assert EjecutarTabla(ACCIONES, "moneda", ["a4"], "esperar").0 == ["esperar"];
    assert EjecutarTabla(ACCIONES, "", ["moneda", "a4"], "esperar").0 == ["pedir-codigo", "esperar"];
  }

  /** From `sin-moneda`/`pedir-moneda`, the percepts `moneda`, `a1`, `servida` give `pedir-codigo`, `esperar`, `pedir-moneda`. */
  lemma DemoModelo()
    ensures EjecutarModelo(Configuracion(MODELO, REGLAS, "sin-moneda", "pedir-moneda"),
                           Memoria("sin-moneda", None, "pedir-moneda"), ["moneda", "a1", "servida"]).0
            == ["pedir-codigo", "esperar", "pedir-moneda"]
  {
  }
}
