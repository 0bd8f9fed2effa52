/**
 * The agents of `busqueda/agentes/`: the same three kinds as in `agentes.py`,
 * but every percept is stripped of surrounding whitespace first, the
 * constructors refuse empty tables, and the model-based agent keeps its last
 * action when it resets.
 */

/** `busqueda/agentes/tabla.py`: the table agent over stripped percepts. */
module Tabla {
  import opened Texto
  import Agentes

  /**
   * One call of `actuar`: the action returned and the history afterwards. It
   * is the table agent of `agentes.py` fed the stripped percept, so a
   * whitespace-only percept changes nothing.
   */
  function PasoTabla(acciones: map<string, string>, historial: string, percepcion: string, basica: string): (r: (string, string))
    ensures r == Agentes.PasoTabla(acciones, historial, Strip(percepcion), basica)
    ensures (forall j :: 0 <= j < |percepcion| ==> EsEspacio(percepcion[j])) ==> r == (basica, historial)
  {
    StripVacio(percepcion);
    if percepcion == "" then (basica, historial)
    else
      var p := Strip(percepcion);
      if |p| == 0 then (basica, historial)
      else
        var h := Agentes.Extender(historial, p);
        if h in acciones then (acciones[h], h) else (basica, "")
  }

  /** A percept and its stripped form drive the agent the same way. */
  lemma {:induction false} PasoTablaIgnoraEspacios(acciones: map<string, string>, historial: string, percepcion: string, basica: string)
    ensures PasoTabla(acciones, historial, Strip(percepcion), basica) == PasoTabla(acciones, historial, percepcion, basica)
  {
    StripIdempotente(percepcion);
  }

  /** The object `AgenteTabla`; an empty action table is refused. */
  class AgenteTabla {
    const acciones: map<string, string>
    var percepciones: string

    constructor (acciones: map<string, string>)
      requires |acciones| > 0
      ensures this.acciones == acciones && percepciones == ""
      ensures Agentes.HistorialValido(this.acciones, percepciones)
    {
      this.acciones := acciones;
      percepciones := "";
    }

    method Actuar(percepcion: string, accionBasica: string) returns (accion: string)
      modifies this
      ensures (accion, percepciones) == PasoTabla(acciones, old(percepciones), percepcion, accionBasica)
      ensures Agentes.HistorialValido(acciones, old(percepciones)) ==> Agentes.HistorialValido(acciones, percepciones)
    {
      if percepcion == "" {
        return accionBasica;
      }
      var p := Strip(percepcion);
      if |p| == 0 {
        return accionBasica;
      }
      ghost var previo := percepciones;
      if |percepciones| != 0 {
        percepciones := percepciones + ",";
      }
      percepciones := percepciones + p;
      assert percepciones == Agentes.Extender(previo, p);
      if percepciones in acciones {
        return acciones[percepciones];
      }
      percepciones := "";
      return accionBasica;
    }
  }
}

/** `busqueda/agentes/modelos.py`: the model-based agent whose reset keeps `ult_accion`. */
module Modelos {
  import opened Tipos
  import opened Texto
  import Agentes

  type Configuracion = Agentes.Configuracion
  type Memoria = Agentes.Memoria

  /**
   * The constructor's fixed part: a missing initial state or action becomes
   * `""`, and an empty model or rule table is refused.
   */
  function NuevaConfiguracion(modelo: map<(string, string, string), string>, reglas: map<string, string>,
                              estadoInicial: Option<string>, accionInicial: Option<string>): (r: Option<Configuracion>)
    ensures r.Some? <==> |modelo| > 0 && |reglas| > 0
    ensures r.Some? ==> r.value.modelo == modelo && r.value.reglas == reglas
    ensures r.Some? && estadoInicial.None? ==> r.value.estadoInicial == ""
    ensures r.Some? && accionInicial.None? ==> r.value.accionInicial == ""
    ensures r.Some? && estadoInicial.Some? ==> r.value.estadoInicial == estadoInicial.value
    ensures r.Some? && accionInicial.Some? ==> r.value.accionInicial == accionInicial.value
  {
    if |modelo| == 0 || |reglas| == 0 then None
    else
      Some(Agentes.Configuracion(modelo, reglas,
        if estadoInicial.Some? then estadoInicial.value else "",
        if accionInicial.Some? then accionInicial.value else ""))
  }

  /** The memory after a reset of this agent: state and action go back, the last action stays. */
  function Reinicio(c: Configuracion, m: Memoria): Memoria
  {
    Agentes.Memoria(c.estadoInicial, Some(c.accionInicial), m.ultAccion)
  }

  /**
   * One call of `actuar`. It returns what the agent of `agentes.py` returns
   * for the stripped percept and reaches the same state and `accion`; only
   * `ult_accion` differs, which a reset leaves as it was.
   */
  function PasoModelo(c: Configuracion, m: Memoria, percepcion: string): (r: (string, Memoria))
    ensures var s := Agentes.PasoModelo(c, m, Strip(percepcion));
      r.0 == s.0 && r.1.estado == s.1.estado && r.1.accion == s.1.accion
      && (r.1.ultAccion == s.1.ultAccion || (s.1 == Agentes.Reinicio(c) && r.1.ultAccion == m.ultAccion))
    ensures (forall j :: 0 <= j < |percepcion| ==> EsEspacio(percepcion[j])) ==> r == (c.accionInicial, m)
    ensures var k := (m.estado, m.ultAccion, Strip(percepcion));
      Strip(percepcion) != "" && (k !in c.modelo || c.modelo[k] !in c.reglas) ==> r == (c.accionInicial, Reinicio(c, m))
    ensures var k := (m.estado, m.ultAccion, Strip(percepcion));
      Strip(percepcion) != "" && k in c.modelo && c.modelo[k] in c.reglas ==>
      r == (c.reglas[c.modelo[k]], Agentes.Memoria(c.modelo[k], m.accion, c.reglas[c.modelo[k]]))
  {
    StripVacio(percepcion);
    if percepcion == "" then (c.accionInicial, m)
    else
      var p := Strip(percepcion);
      if |p| == 0 then (c.accionInicial, m)
      else
        var clave := (m.estado, m.ultAccion, p);
        if clave !in c.modelo then (c.accionInicial, Reinicio(c, m))
        else
          var estado := c.modelo[clave];
          if estado !in c.reglas then (c.accionInicial, Reinicio(c, m))
          else (c.reglas[estado], Agentes.Memoria(estado, m.accion, c.reglas[estado]))
  }

  /** The last action is always the initial action or the action of some rule. */
  predicate UltimaAccionConocida(c: Configuracion, m: Memoria)
  {
    m.ultAccion == c.accionInicial || m.ultAccion in c.reglas.Values
  }

  /** Feeds a sequence of percepts to the agent: its actions and final memory. */
  function EjecutarModelo(c: Configuracion, m: Memoria, ps: seq<string>): (seq<string>, Memoria)
    decreases |ps|
  {
    if ps == [] then ([], m)
    else
      var paso := PasoModelo(c, m, ps[0]);
      var resto := EjecutarModelo(c, paso.1, ps[1..]);
      ([paso.0] + resto.0, resto.1)
  }

  /** The last action stays known over any run of percepts. */
  lemma {:induction false} EjecutarModeloConocida(c: Configuracion, m: Memoria, ps: seq<string>)
    requires UltimaAccionConocida(c, m)
    ensures UltimaAccionConocida(c, EjecutarModelo(c, m, ps).1)
    decreases |ps|
  {
    if ps != [] {
      EjecutarModeloConocida(c, PasoModelo(c, m, ps[0]).1, ps[1..]);
    }
  }

  /** The object `AgenteBasadoModelos` of this file; `accion` is unset until the first reset. */
  class AgenteBasadoModelos {
    const modelo: map<(string, string, string), string>
    const reglas: map<string, string>
    const estadoInicial: string
    const accionInicial: string
    var accion: Option<string>
    var estado: string
    var ultAccion: string

    function Config(): Configuracion
    {
      Agentes.Configuracion(modelo, reglas, estadoInicial, accionInicial)
    }

    function Mem(): Memoria
      reads this
    {
      Agentes.Memoria(estado, accion, ultAccion)
    }

    constructor (modelo: map<(string, string, string), string>, reglas: map<string, string>,
                 estadoInicial: Option<string>, accionInicial: Option<string>)
      requires |modelo| > 0 && |reglas| > 0
      ensures Some(Config()) == NuevaConfiguracion(modelo, reglas, estadoInicial, accionInicial)
      ensures Mem() == Agentes.Memoria(Config().estadoInicial, None, Config().accionInicial)
      ensures UltimaAccionConocida(Config(), Mem())
    {
      this.modelo := modelo;
      this.reglas := reglas;
      this.estadoInicial := if estadoInicial.Some? then estadoInicial.value else "";
      this.accionInicial := if accionInicial.Some? then accionInicial.value else "";
      accion := None;
      estado := if estadoInicial.Some? then estadoInicial.value else "";
      ultAccion := if accionInicial.Some? then accionInicial.value else "";
    }

    method Actuar(percepcion: string) returns (a: string)
      modifies this
      ensures (a, Mem()) == PasoModelo(Config(), old(Mem()), percepcion)
      ensures UltimaAccionConocida(Config(), old(Mem())) ==> UltimaAccionConocida(Config(), Mem())
    {
      if percepcion == "" {
        return accionInicial;
      }
      var p := Strip(percepcion);
      if |p| == 0 {
        return accionInicial;
      }
      var clave := (estado, ultAccion, p);
      if clave !in modelo {
        estado := estadoInicial;
        accion := Some(accionInicial);
        return accionInicial;
      }
      estado := modelo[clave];
      if estado !in reglas {
        estado := estadoInicial;
        accion := Some(accionInicial);
        return accionInicial;
      }
      a := reglas[estado];
      ultAccion := a;
    }
  }

  /**
   * The reset of `agentes.py`, which also puts `ult_accion` back, applied to
   * the stripped percept: after any reset the agent is exactly as if freshly
   * built, so the memory stays coherent.
   */
  function PasoModeloCorregido(c: Configuracion, m: Memoria, percepcion: string): (r: (string, Memoria))
    ensures Agentes.Coherente(c, m) ==> Agentes.Coherente(c, r.1)
    ensures r.1 == Agentes.Reinicio(c) || r.1 == m || (r.1.estado in c.reglas && r.0 == c.reglas[r.1.estado])
  {
    Agentes.PasoModelo(c, m, Strip(percepcion))
  }

  function EjecutarCorregido(c: Configuracion, m: Memoria, ps: seq<string>): (seq<string>, Memoria)
    decreases |ps|
  {
    if ps == [] then ([], m)
    else
      var paso := PasoModeloCorregido(c, m, ps[0]);
      var resto := EjecutarCorregido(c, paso.1, ps[1..]);
      ([paso.0] + resto.0, resto.1)
  }

  const DEMO := Agentes.Configuracion(Agentes.MODELO, Agentes.REGLAS, "sin-moneda", "pedir-moneda")
  const INICIO := Agentes.Memoria("sin-moneda", None, "pedir-moneda")

  /** The memory the demo agent of this file reaches after a wrong code: the initial state with `pedir-codigo` as last action. */
  const ATASCADA := Agentes.Memoria("sin-moneda", Some("pedir-moneda"), "pedir-codigo")

  /** A coin followed by the unknown code `a4` leaves the demo agent in the stuck memory. */
  lemma LlegaAtasco()
    ensures EjecutarModelo(DEMO, INICIO, ["moneda", "a4"]) == (["pedir-codigo", "pedir-moneda"], ATASCADA)
  {
    var m1 := Agentes.Memoria("con-moneda", None, "pedir-codigo");
    StripSinBordes("moneda");
    StripSinBordes("a4");
    assert PasoModelo(DEMO, INICIO, "moneda") == ("pedir-codigo", m1);
    assert PasoModelo(DEMO, m1, "a4") == ("pedir-moneda", ATASCADA);
    assert ["moneda", "a4"][1..] == ["a4"] && ["a4"][1..] == [];
    assert EjecutarModelo(DEMO, m1, ["a4"]).0 == ["pedir-moneda"];
    assert EjecutarModelo(DEMO, INICIO, ["moneda", "a4"]).0 == ["pedir-codigo", "pedir-moneda"];
  }

  /**
   * Once stuck, the demo agent of this file never recovers: no key of the
   * model starts with (`sin-moneda`, `pedir-codigo`), so every later percept,
   * a coin included, answers `pedir-moneda` and leaves it stuck.
   */
  lemma {:induction false} AtascoPermanente(ps: seq<string>)
    ensures EjecutarModelo(DEMO, ATASCADA, ps).1 == ATASCADA
    ensures forall i :: 0 <= i < |EjecutarModelo(DEMO, ATASCADA, ps).0| ==> EjecutarModelo(DEMO, ATASCADA, ps).0[i] == "pedir-moneda"
    ensures |EjecutarModelo(DEMO, ATASCADA, ps).0| == |ps|
    decreases |ps|
  {
    if ps != [] {
      var p := Strip(ps[0]);
      assert ("sin-moneda", "pedir-codigo", p) !in DEMO.modelo;
      assert PasoModelo(DEMO, ATASCADA, ps[0]) == ("pedir-moneda", ATASCADA);
      AtascoPermanente(ps[1..]);
    }
  }

  /** With the corrected reset, the same coin and wrong code are followed by a coin that is accepted again. */
  lemma RecuperaCorregido()
    ensures EjecutarCorregido(DEMO, INICIO, ["moneda", "a4", "moneda"]).0 == ["pedir-codigo", "pedir-moneda", "pedir-codigo"]
  {
    StripSinBordes("moneda");
    StripSinBordes("a4");
    var m1 := Agentes.Memoria("con-moneda", None, "pedir-codigo");
    var m2 := Agentes.Reinicio(DEMO);
    var m3 := Agentes.Memoria("con-moneda", Some("pedir-moneda"), "pedir-codigo");
    assert PasoModeloCorregido(DEMO, INICIO, "moneda") == ("pedir-codigo", m1);
    assert PasoModeloCorregido(DEMO, m1, "a4") == ("pedir-moneda", m2);
    assert PasoModeloCorregido(DEMO, m2, "moneda") == ("pedir-codigo", m3);
    assert ["moneda", "a4", "moneda"][1..] == ["a4", "moneda"] && ["a4", "moneda"][1..] == ["moneda"] && ["moneda"][1..] == [];
    assert EjecutarCorregido(DEMO, m2, ["moneda"]).0 == ["pedir-codigo"];
    assert EjecutarCorregido(DEMO, m1, ["a4", "moneda"]).0 == ["pedir-moneda", "pedir-codigo"];
  }
}

/** `busqueda/agentes/simple.py`: the stateless reflex agent over stripped percepts. */
module Simple {
  import opened Tipos
  import opened Texto
  import Agentes

  /** The reflex agent holds only its rules, so it is a value. */
  datatype AgenteReactivoSimple = AgenteReactivoSimple(reglas: map<string, string>)
  {
    /** `actuar`: the rule of `agentes.py`'s reflex agent applied to the stripped percept. */
    function Actuar(percepcion: string, accionBasica: string): (accion: string)
      ensures accion == Agentes.AgenteReactivoSimple(reglas).Actuar(Strip(percepcion), accionBasica)
      ensures accion == accionBasica || accion in reglas.Values
    {
      if percepcion == "" then accionBasica
      else
        var p := Strip(percepcion);
        if |p| == 0 then accionBasica
        else if p in reglas then reglas[p]
        else accionBasica
    }
  }

  /** The constructor: an empty rule table is refused. */
  function Nuevo(reglas: map<string, string>): (r: Option<AgenteReactivoSimple>)
    ensures r.Some? <==> |reglas| > 0
    ensures r.Some? ==> r.value.reglas == reglas
  {
    if |reglas| == 0 then None else Some(AgenteReactivoSimple(reglas))
  }

  /** Whitespace around a percept does not change the action. */
  lemma {:induction false} ActuarIgnoraEspacios(a: AgenteReactivoSimple, percepcion: string, basica: string)
    ensures a.Actuar(Strip(percepcion), basica) == a.Actuar(percepcion, basica)
  {
    StripIdempotente(percepcion);
  }

  /** A whitespace-only percept gives the default action. */
  lemma {:induction false} ActuarSoloEspacios(a: AgenteReactivoSimple, percepcion: string, basica: string)
    requires forall j :: 0 <= j < |percepcion| ==> EsEspacio(percepcion[j])
    ensures a.Actuar(percepcion, basica) == basica
  {
    StripVacio(percepcion);
  }
}
