/** The exam editor page: loading the generated exam from browser storage,
    the three edit operations, and the payload built when the exam is
    saved (answer ids 1-4 become letters A-D). */
module Examen {
  import opened Base
  import opened Text

  // ---------------------------------------------------------------------
  // Data model

  /** An answer: its id is whatever `parseInt` made of the backend key. */
  datatype Respuesta = Respuesta(id: Num, texto: string, correcta: bool)

  /** A question: ids are 1..n in the order the backend returned them. */
  datatype Pregunta = Pregunta(id: int, texto: string, respuestas: seq<Respuesta>)

  /** One element of the stored `examData` array: the question text, the
      answers as the key/value entries of an object (in `Object.entries`
      order) and the number of the correct answer. */
  datatype ItemExamen = ItemExamen(pregunta: string, respuestas: seq<(string, string)>, correcta: int)

  /** The parsed `examMeta` object; a field is `None` when it is missing
      or null. */
  datatype MetaAlmacenada = MetaAlmacenada(title: Option<string>, subject: Option<string>, description: Option<string>)

  datatype Metadatos = Metadatos(title: string, subject: string, description: string)

  /** What the page shows once its mount effect has run. */
  datatype Pantalla =
    | IrALogin
    | IrADashboard
    | Editor(examId: string, meta: Metadatos, preguntas: seq<Pregunta>)

  datatype RespuestaCorrecta = RespuestaCorrecta(numeroPregunta: int, respuestaCorrecta: char)

  datatype PreguntaFormateada = PreguntaFormateada(numeroPregunta: int, pregunta: string, respuestas: map<char, string>)

  /** The JSON body posted to `/exam/final`. */
  datatype DatosExamen = DatosExamen(
    id: Option<string>,
    titulo: string,
    asignatura: string,
    descripcion: string,
    respuestasCorrectas: seq<RespuestaCorrecta>,
    preguntas: seq<PreguntaFormateada>)

  /** Saving always writes `examMeta` back to storage; the request is only
      sent when a token is stored. */
  datatype Guardado = Guardado(examMeta: Metadatos, peticion: Option<DatosExamen>)

  const TituloPorDefecto := "Examen generado"
  const AsignaturaPorDefecto := "Asignatura"
  const DescripcionPorDefecto := "Examen generado autom\U{00E1}ticamente"
  const NombrePorDefecto := "examen.pdf"

  // ---------------------------------------------------------------------
  // Invariants of an answer list

  /** At most one answer is marked correct. */
  predicate CorrectaUnica(rs: seq<Respuesta>)
  {
    forall j, k :: 0 <= j < |rs| && 0 <= k < |rs| && rs[j].correcta && rs[k].correcta ==> j == k
  }

  /** Exactly one answer is marked correct. */
  predicate ExactamenteUnaCorrecta(rs: seq<Respuesta>)
  {
    CorrectaUnica(rs) && exists k :: 0 <= k < |rs| && rs[k].correcta
  }

  /** No two answers have ids that `===` considers equal. */
  predicate IdsUnicos(rs: seq<Respuesta>)
  {
    forall j, k :: 0 <= j < |rs| && 0 <= k < |rs| && j != k ==> !StrictEquals(rs[j].id, rs[k].id)
  }

  /** Some answer has an id `===` to `id`. */
  predicate TieneId(rs: seq<Respuesta>, id: Num)
  {
    exists k :: 0 <= k < |rs| && StrictEquals(rs[k].id, id)
  }

  // ---------------------------------------------------------------------
  // Loading

  function CargarRespuestas(entradas: seq<(string, string)>, correcta: int): (rs: seq<Respuesta>)
    ensures |rs| == |entradas|
    ensures forall k :: 0 <= k < |rs| ==> rs[k].id == ParseInt(entradas[k].0) && rs[k].texto == entradas[k].1
    ensures forall k :: 0 <= k < |rs| ==> (rs[k].correcta <==> rs[k].id == Int(correcta))
  {
    seq(|entradas|, k requires 0 <= k < |entradas| =>
      var id := ParseInt(entradas[k].0);
      Respuesta(id, entradas[k].1, StrictEquals(id, Int(correcta))))
  }

  /** Turns the stored backend payload into questions numbered 1..n. */
  function CargarPreguntas(items: seq<ItemExamen>): (ps: seq<Pregunta>)
    ensures |ps| == |items|
    ensures forall i :: 0 <= i < |ps| ==> ps[i].id == i + 1 && ps[i].texto == items[i].pregunta
    ensures forall i :: 0 <= i < |ps| ==>
      ps[i].respuestas == CargarRespuestas(items[i].respuestas, items[i].correcta)
  {
    seq(|items|, i requires 0 <= i < |items| =>
      Pregunta(i + 1, items[i].pregunta, CargarRespuestas(items[i].respuestas, items[i].correcta)))
  }

  /** When no two parsed ids are `===`, at most one answer loads as
      correct; keys that parse to NaN never clash, since NaN is never
      correct. */
  lemma CargaCorrectaUnica(entradas: seq<(string, string)>, correcta: int)
    requires IdsUnicos(CargarRespuestas(entradas, correcta))
    ensures CorrectaUnica(CargarRespuestas(entradas, correcta))
  {
  }

  /** When no key parses to `correcta`, no answer loads as correct and the
      save sends 'A'. A `correcta` that is not a number at all, such as the
      string "2", behaves this way too, since `===` never holds. */
  lemma CargaSinCorrecta(entradas: seq<(string, string)>, correcta: int)
    requires forall k :: 0 <= k < |entradas| ==> ParseInt(entradas[k].0) != Int(correcta)
    ensures forall k :: 0 <= k < |entradas| ==> !CargarRespuestas(entradas, correcta)[k].correcta
    ensures LetraCorrecta(CargarRespuestas(entradas, correcta)) == 'A'
  {
  }

  /** An object key that is the decimal numeral of a natural number, as
      JavaScript writes array-index keys. */
  ghost predicate EsNumeral(clave: string)
  {
    exists n: nat :: clave == Decimal(n)
  }

  /** With distinct numeral keys, loading marks at most one answer correct. */
  lemma CargaClavesNumerales(entradas: seq<(string, string)>, correcta: int)
    requires forall k :: 0 <= k < |entradas| ==> EsNumeral(entradas[k].0)
    requires forall j, k :: 0 <= j < |entradas| && 0 <= k < |entradas| && j != k ==> entradas[j].0 != entradas[k].0
    ensures CorrectaUnica(CargarRespuestas(entradas, correcta))
  {
    var rs := CargarRespuestas(entradas, correcta);
    forall j, k | 0 <= j < |rs| && 0 <= k < |rs| && rs[j].correcta && rs[k].correcta
      ensures j == k
    {
      var nj: nat :| entradas[j].0 == Decimal(nj);
      var nk: nat :| entradas[k].0 == Decimal(nk);
      ParseIntDecimal(nj);
      ParseIntDecimal(nk);
    }
  }

  /** Distinct keys alone are not enough: "1" and "01" both parse to 1, so
      both answers are loaded as correct. */
  lemma CargaClavesConCero()
    ensures var rs := CargarRespuestas([("1", "x"), ("01", "y")], 1);
      rs[0].correcta && rs[1].correcta && !CorrectaUnica(rs)
  {
    ParseIntLeadingZero();
    var e := [("1", "x"), ("01", "y")];
    var rs := CargarRespuestas(e, 1);
    assert e[0].0 == "1" && e[1].0 == "01";
    assert rs[0].id == Int(1) && rs[1].id == Int(1);
  }

  /** `examMeta` fields fall back to fixed texts when missing or empty. */
  function CargarMetadatos(guardada: Option<MetaAlmacenada>): (m: Metadatos)
    ensures m.title != "" && m.subject != "" && m.description != ""
    ensures guardada.None? ==> m == Metadatos(TituloPorDefecto, AsignaturaPorDefecto, DescripcionPorDefecto)
    ensures guardada.Some? && IsTruthy(guardada.value.title) ==> m.title == guardada.value.title.value
    ensures guardada.Some? && IsTruthy(guardada.value.subject) ==> m.subject == guardada.value.subject.value
    ensures guardada.Some? && IsTruthy(guardada.value.description) ==> m.description == guardada.value.description.value
    ensures guardada.Some? && !IsTruthy(guardada.value.title) ==> m.title == TituloPorDefecto
    ensures guardada.Some? && !IsTruthy(guardada.value.subject) ==> m.subject == AsignaturaPorDefecto
    ensures guardada.Some? && !IsTruthy(guardada.value.description) ==> m.description == DescripcionPorDefecto
  {
    match guardada
    case None => Metadatos(TituloPorDefecto, AsignaturaPorDefecto, DescripcionPorDefecto)
    case Some(g) =>
      Metadatos(OrElse(g.title, TituloPorDefecto),
                OrElse(g.subject, AsignaturaPorDefecto),
                OrElse(g.description, DescripcionPorDefecto))
  }

  /** The mount effect: no token sends to login, no exam id to the
      dashboard; otherwise metadata and questions are loaded. Stored data
      that is absent or cannot be parsed leaves the question list empty. */
  function CargarEditor(token: Option<string>, examId: Option<string>,
                        meta: Option<MetaAlmacenada>, examData: Option<seq<ItemExamen>>): (p: Pantalla)
    ensures p == IrALogin <==> !IsTruthy(token)
    ensures p == IrADashboard <==> IsTruthy(token) && !IsTruthy(examId)
    ensures p.Editor? ==> p.examId == examId.value && p.meta == CargarMetadatos(meta)
    ensures p.Editor? && examData.None? ==> p.preguntas == []
    ensures p.Editor? && examData.Some? ==> p.preguntas == CargarPreguntas(examData.value)
  {
    if !IsTruthy(token) then IrALogin
    else if !IsTruthy(examId) then IrADashboard
    else
      var ps := match examData case None => [] case Some(items) => CargarPreguntas(items);
      Editor(examId.value, CargarMetadatos(meta), ps)
  }

  // ---------------------------------------------------------------------
  // Editing

  function ActualizarTextoPregunta(ps: seq<Pregunta>, idPregunta: int, nuevoTexto: string): (r: seq<Pregunta>)
    ensures |r| == |ps|
    ensures forall i :: 0 <= i < |ps| ==> r[i].id == ps[i].id && r[i].respuestas == ps[i].respuestas
    ensures forall i :: 0 <= i < |ps| && ps[i].id != idPregunta ==> r[i] == ps[i]
    ensures forall i :: 0 <= i < |ps| && ps[i].id == idPregunta ==> r[i].texto == nuevoTexto
  {
    seq(|ps|, i requires 0 <= i < |ps| =>
      if ps[i].id == idPregunta then ps[i].(texto := nuevoTexto) else ps[i])
  }

  /** Replaces the text of the answers whose id is `===` to `idRespuesta`. */
  function ActualizarRespuestas(rs: seq<Respuesta>, idRespuesta: Num, nuevoTexto: string): (r: seq<Respuesta>)
    ensures |r| == |rs|
    ensures forall k :: 0 <= k < |rs| ==> r[k].id == rs[k].id && r[k].correcta == rs[k].correcta
    ensures forall k :: 0 <= k < |rs| && !StrictEquals(rs[k].id, idRespuesta) ==> r[k] == rs[k]
    ensures forall k :: 0 <= k < |rs| && StrictEquals(rs[k].id, idRespuesta) ==> r[k].texto == nuevoTexto
  {
    seq(|rs|, k requires 0 <= k < |rs| =>
      if StrictEquals(rs[k].id, idRespuesta) then rs[k].(texto := nuevoTexto) else rs[k])
  }

  function ActualizarTextoRespuesta(ps: seq<Pregunta>, idPregunta: int, idRespuesta: Num, nuevoTexto: string): (r: seq<Pregunta>)
    ensures |r| == |ps|
    ensures forall i :: 0 <= i < |ps| ==> r[i].id == ps[i].id && r[i].texto == ps[i].texto
    ensures forall i :: 0 <= i < |ps| && ps[i].id != idPregunta ==> r[i] == ps[i]
    ensures forall i :: 0 <= i < |ps| && ps[i].id == idPregunta ==>
      r[i].respuestas == ActualizarRespuestas(ps[i].respuestas, idRespuesta, nuevoTexto)
  {
    seq(|ps|, i requires 0 <= i < |ps| =>
      if ps[i].id == idPregunta
      then ps[i].(respuestas := ActualizarRespuestas(ps[i].respuestas, idRespuesta, nuevoTexto))
      else ps[i])
  }

  /** Sets every correct flag: an answer is correct iff its id is `===`
      to `idRespuesta`. */
  function MarcarRespuestas(rs: seq<Respuesta>, idRespuesta: Num): (r: seq<Respuesta>)
    ensures |r| == |rs|
    ensures forall k :: 0 <= k < |rs| ==> r[k].id == rs[k].id && r[k].texto == rs[k].texto
    ensures forall k :: 0 <= k < |rs| ==> (r[k].correcta <==> StrictEquals(rs[k].id, idRespuesta))
  {
    seq(|rs|, k requires 0 <= k < |rs| => rs[k].(correcta := StrictEquals(rs[k].id, idRespuesta)))
  }

  function MarcarRespuestaCorrecta(ps: seq<Pregunta>, idPregunta: int, idRespuesta: Num): (r: seq<Pregunta>)
    ensures |r| == |ps|
    ensures forall i :: 0 <= i < |ps| ==> r[i].id == ps[i].id && r[i].texto == ps[i].texto
    ensures forall i :: 0 <= i < |ps| && ps[i].id != idPregunta ==> r[i] == ps[i]
    ensures forall i :: 0 <= i < |ps| && ps[i].id == idPregunta ==>
      r[i].respuestas == MarcarRespuestas(ps[i].respuestas, idRespuesta)
  {
    seq(|ps|, i requires 0 <= i < |ps| =>
      if ps[i].id == idPregunta
      then ps[i].(respuestas := MarcarRespuestas(ps[i].respuestas, idRespuesta))
      else ps[i])
  }

  /** Marking an answer whose id occurs among answers with unique ids
      leaves exactly one answer correct; marking an id that does not occur
      leaves none. */
  lemma MarcarExactamenteUna(rs: seq<Respuesta>, idRespuesta: Num)
    requires IdsUnicos(rs)
    ensures TieneId(rs, idRespuesta) ==> ExactamenteUnaCorrecta(MarcarRespuestas(rs, idRespuesta))
    ensures !TieneId(rs, idRespuesta) ==> forall k :: 0 <= k < |rs| ==> !MarcarRespuestas(rs, idRespuesta)[k].correcta
  {
    var r := MarcarRespuestas(rs, idRespuesta);
    if TieneId(rs, idRespuesta) {
      var k :| 0 <= k < |rs| && StrictEquals(rs[k].id, idRespuesta);
      assert r[k].correcta;
    }
  }

  // ---------------------------------------------------------------------
  // Letters

  /** The `switch` of the save handler: ids 1-4 become A-D, anything else
      (including NaN) keeps the initial 'A'. */
  function Letra(id: Num): char
  {
    match id
    case Int(1) => 'A'
    case Int(2) => 'B'
    case Int(3) => 'C'
    case Int(4) => 'D'
    case _ => 'A'
  }

  /** The letter shown beside each answer in the editor: ids 1-3 become
      A-C and every other id is shown as 'D'. */
  function Etiqueta(id: Num): char
  {
    if StrictEquals(id, Int(1)) then 'A'
    else if StrictEquals(id, Int(2)) then 'B'
    else if StrictEquals(id, Int(3)) then 'C'
    else 'D'
  }

  /** The backend's answer numbering, read back from a letter. */
  function IdDeLetra(l: char): Option<int>
  {
    if l == 'A' then Some(1)
    else if l == 'B' then Some(2)
    else if l == 'C' then Some(3)
    else if l == 'D' then Some(4)
    else None
  }

  predicate EnRango(id: Num) { id.Int? && 1 <= id.value <= 4 }

  /** The letter mapping is total onto A-D, a bijection on ids 1-4 whose
      inverse is `IdDeLetra`, and sends every other id to 'A'. */
  lemma LetraTotal(id: Num)
    ensures Letra(id) in {'A', 'B', 'C', 'D'}
    ensures EnRango(id) ==> IdDeLetra(Letra(id)) == Some(id.value)
    ensures !EnRango(id) ==> Letra(id) == 'A'
  {
  }

  /** On ids 1-4, different ids get different letters. */
  lemma LetraInyectiva(a: Num, b: Num)
    requires EnRango(a) && EnRango(b)
    ensures Letra(a) == Letra(b) <==> a == b
  {
    LetraTotal(a);
    LetraTotal(b);
  }

  /** The editor's label and the saved letter agree exactly on ids 1-4:
      an answer with any other id is shown as 'D' but saved as 'A'. */
  lemma EtiquetaCoincideConLetra(id: Num)
    ensures Etiqueta(id) == Letra(id) <==> EnRango(id)
    ensures !EnRango(id) ==> Etiqueta(id) == 'D'
  {
  }

  // ---------------------------------------------------------------------
  // Saving

  /** `respuestas.find((r) => r.correcta)`, as an index. */
  function PrimeraCorrecta(rs: seq<Respuesta>): (r: Option<nat>)
    ensures r.Some? ==> r.value < |rs| && rs[r.value].correcta
    ensures r.Some? ==> forall j :: 0 <= j < r.value ==> !rs[j].correcta
    ensures r.None? ==> forall j :: 0 <= j < |rs| ==> !rs[j].correcta
  {
    if |rs| == 0 then None
    else if rs[0].correcta then Some(0)
    else
      match PrimeraCorrecta(rs[1..])
      case None => None
      case Some(k) => Some(k + 1)
  }

  /** The letter of the first correct answer, or 'A' when none is correct. */
  function LetraCorrecta(rs: seq<Respuesta>): (l: char)
    ensures (forall j :: 0 <= j < |rs| ==> !rs[j].correcta) ==> l == 'A'
    ensures forall k :: 0 <= k < |rs| && rs[k].correcta && (forall j :: 0 <= j < k ==> !rs[j].correcta) ==>
      l == Letra(rs[k].id)
  {
    match PrimeraCorrecta(rs)
    case None => 'A'
    case Some(k) => Letra(rs[k].id)
  }

  function RespuestasCorrectas(ps: seq<Pregunta>): (r: seq<RespuestaCorrecta>)
    ensures |r| == |ps|
    ensures forall i :: 0 <= i < |ps| ==>
      r[i].numeroPregunta == ps[i].id && r[i].respuestaCorrecta == LetraCorrecta(ps[i].respuestas)
  {
    seq(|ps|, i requires 0 <= i < |ps| => RespuestaCorrecta(ps[i].id, LetraCorrecta(ps[i].respuestas)))
  }

  /** No later answer in `rs` maps to the same letter as answer `k`. */
  predicate EsUltimaDeSuLetra(rs: seq<Respuesta>, k: int)
    requires 0 <= k < |rs|
  {
    forall j :: k < j < |rs| ==> Letra(rs[j].id) != Letra(rs[k].id)
  }

  /** The `forEach` that keys each answer text by its letter, answer by
      answer in list order. */
  function RespuestasFormateadas(rs: seq<Respuesta>): map<char, string>
  {
    if |rs| == 0 then map[]
    else
      var n := |rs| - 1;
      RespuestasFormateadas(rs[..n])[Letra(rs[n].id) := rs[n].texto]
  }

  /** The saved map has a key for every letter some answer maps to and no
      other; under each letter it holds the text of the last answer with
      that letter, since later answers overwrite earlier ones. */
  lemma FormatoSemantica(rs: seq<Respuesta>)
    ensures forall l :: l in RespuestasFormateadas(rs) <==> exists k :: 0 <= k < |rs| && Letra(rs[k].id) == l
    ensures forall k :: 0 <= k < |rs| && EsUltimaDeSuLetra(rs, k) ==>
      RespuestasFormateadas(rs)[Letra(rs[k].id)] == rs[k].texto
  {
    FormatoClaves(rs);
    FormatoValores(rs);
  }

  /** The keys of the saved map are the letters of the answers. */
  lemma {:induction false} FormatoClaves(rs: seq<Respuesta>)
    ensures forall l :: l in RespuestasFormateadas(rs) <==> exists k :: 0 <= k < |rs| && Letra(rs[k].id) == l
    decreases |rs|
  {
    if |rs| > 0 {
      var n := |rs| - 1;
      var p := rs[..n];
      FormatoClaves(p);
      var m := RespuestasFormateadas(rs);
      var a := RespuestasFormateadas(p);
      assert m == a[Letra(rs[n].id) := rs[n].texto];
      forall l
        ensures l in m <==> exists k :: 0 <= k < |rs| && Letra(rs[k].id) == l
      {
        if l in a {
          var k :| 0 <= k < n && Letra(p[k].id) == l;
          assert rs[k] == p[k];
        }
        if l != Letra(rs[n].id) && exists k :: 0 <= k < |rs| && Letra(rs[k].id) == l {
          var k :| 0 <= k < |rs| && Letra(rs[k].id) == l;
          assert p[k] == rs[k];
        }
      }
    }
  }

  /** Under each letter the saved map holds the text of the last answer
      with that letter. */
  lemma {:induction false} FormatoValores(rs: seq<Respuesta>)
    ensures forall k :: 0 <= k < |rs| && EsUltimaDeSuLetra(rs, k) ==>
      Letra(rs[k].id) in RespuestasFormateadas(rs) && RespuestasFormateadas(rs)[Letra(rs[k].id)] == rs[k].texto
    decreases |rs|
  {
    FormatoClaves(rs);
    if |rs| > 0 {
      var n := |rs| - 1;
      var p := rs[..n];
      FormatoClaves(p);
      FormatoValores(p);
      var m := RespuestasFormateadas(rs);
      assert m == RespuestasFormateadas(p)[Letra(rs[n].id) := rs[n].texto];
      forall k | 0 <= k < |rs| && EsUltimaDeSuLetra(rs, k)
        ensures m[Letra(rs[k].id)] == rs[k].texto
      {
        if k < n {
          assert p[k] == rs[k];
          assert forall j :: k < j < n ==> p[j] == rs[j];
          assert EsUltimaDeSuLetra(p, k);
        }
      }
    }
  }

  function PreguntasConRespuestas(ps: seq<Pregunta>): (r: seq<PreguntaFormateada>)
    ensures |r| == |ps|
    ensures forall i :: 0 <= i < |ps| ==>
      && r[i].numeroPregunta == ps[i].id
      && r[i].pregunta == ps[i].texto
      && r[i].respuestas == RespuestasFormateadas(ps[i].respuestas)
  {
    seq(|ps|, i requires 0 <= i < |ps| =>
      PreguntaFormateada(ps[i].id, ps[i].texto, RespuestasFormateadas(ps[i].respuestas)))
  }

  /** The save handler: `examMeta` is always written back; the request
      body is built only when a token is stored. */
  function GuardarExamen(meta: Metadatos, examId: Option<string>, token: Option<string>, ps: seq<Pregunta>): (g: Guardado)
    ensures g.examMeta == meta
    ensures g.peticion.Some? <==> IsTruthy(token)
    ensures g.peticion.Some? ==>
      var d := g.peticion.value;
      && d.id == examId
      && d.titulo == meta.title && d.asignatura == meta.subject && d.descripcion == meta.description
      && d.respuestasCorrectas == RespuestasCorrectas(ps)
      && d.preguntas == PreguntasConRespuestas(ps)
  {
    var datos := DatosExamen(examId, meta.title, meta.subject, meta.description,
                             RespuestasCorrectas(ps), PreguntasConRespuestas(ps));
    Guardado(meta, if IsTruthy(token) then Some(datos) else None)
  }

  /** The object written to `examMeta`, as it parses back. */
  function MetaEscrita(m: Metadatos): MetaAlmacenada
  {
    MetaAlmacenada(Some(m.title), Some(m.subject), Some(m.description))
  }

  /** Saving then reloading gives the metadata back unless a field was
      emptied, which reloads as its default text. */
  lemma MetaIdaYVuelta(meta: Metadatos, examId: Option<string>, token: Option<string>, ps: seq<Pregunta>)
    ensures var m := CargarMetadatos(Some(MetaEscrita(GuardarExamen(meta, examId, token, ps).examMeta)));
      && m.title == (if meta.title == "" then TituloPorDefecto else meta.title)
      && m.subject == (if meta.subject == "" then AsignaturaPorDefecto else meta.subject)
      && m.description == (if meta.description == "" then DescripcionPorDefecto else meta.description)
  {
  }

  /** The suggested download name: the header's `filename` capture with
      its quotes removed, or `examen.pdf` when there is no header or no
      non-empty capture. The regular expression is the parameter `captura`. */
  function NombreDescarga(cabecera: Option<string>, captura: string -> Option<string>): (nombre: string)
    ensures forall c :: c in nombre ==> !EsComilla(c)
    ensures !IsTruthy(cabecera) ==> nombre == NombrePorDefecto
    ensures IsTruthy(cabecera) && !IsTruthy(captura(cabecera.value)) ==> nombre == NombrePorDefecto
    ensures IsTruthy(cabecera) && IsTruthy(captura(cabecera.value)) ==>
      nombre == SinComillas(captura(cabecera.value).value)
  {
    if !IsTruthy(cabecera) then NombrePorDefecto
    else
      var capturado := captura(cabecera.value);
      if IsTruthy(capturado) then SinComillas(capturado.value) else NombrePorDefecto
  }

  predicate EsComilla(c: char) { c == '\'' || c == '"' }

  /** `replace(/['"]/g, "")`: the characters of `s` that are not quotes,
      in order. */
  function SinComillas(s: string): (r: string)
    ensures forall c :: c in r <==> c in s && !EsComilla(c)
    ensures forall c :: multiset(r)[c] == if EsComilla(c) then 0 else multiset(s)[c]
    ensures IsSubsequence(r, s)
  {
    Filter((c: char) => !EsComilla(c), s)
  }

  /** Removing the quotes from a name without quotes changes nothing. */
  lemma SinComillasIdempotente(s: string)
    ensures SinComillas(SinComillas(s)) == SinComillas(s)
  {
    FilterAll((c: char) => !EsComilla(c), SinComillas(s));
  }

  /** A capture made only of quotes passes the check and yields an empty
      file name. */
  lemma NombreDescargaVacio()
    ensures NombreDescarga(Some("attachment; filename=''"), (h: string) => Some("''")) == ""
  {
    assert SinComillas("''") == [] by {
      assert EsComilla('\'');
    }
  }

  // ---------------------------------------------------------------------
  // Properties relating the operations

  /** The first correct answer is decided by the correct flags alone. */
  lemma {:induction false} PrimeraCorrectaPorBanderas(a: seq<Respuesta>, b: seq<Respuesta>)
    requires |a| == |b|
    requires forall k :: 0 <= k < |a| ==> a[k].correcta == b[k].correcta
    ensures PrimeraCorrecta(a) == PrimeraCorrecta(b)
  {
    if |a| > 0 && !a[0].correcta {
      PrimeraCorrectaPorBanderas(a[1..], b[1..]);
    }
  }

  /** The saved letter depends only on the ids and correct flags. */
  lemma LetraCorrectaSinTextos(a: seq<Respuesta>, b: seq<Respuesta>)
    requires |a| == |b|
    requires forall k :: 0 <= k < |a| ==> a[k].id == b[k].id && a[k].correcta == b[k].correcta
    ensures LetraCorrecta(a) == LetraCorrecta(b)
  {
    PrimeraCorrectaPorBanderas(a, b);
  }

  /** The letter-keyed answers depend only on the ids and texts. */
  lemma {:induction false} FormatoSinBanderas(a: seq<Respuesta>, b: seq<Respuesta>)
    requires |a| == |b|
    requires forall k :: 0 <= k < |a| ==> a[k].id == b[k].id && a[k].texto == b[k].texto
    ensures RespuestasFormateadas(a) == RespuestasFormateadas(b)
    decreases |a|
  {
    if |a| > 0 {
      var n := |a| - 1;
      FormatoSinBanderas(a[..n], b[..n]);
    }
  }

  /** Editing a question's text changes neither the correct letters nor
      the letter-keyed answers; only that question's text in the payload. */
  lemma EditarPreguntaEnGuardado(ps: seq<Pregunta>, idPregunta: int, nuevoTexto: string)
    ensures var r := ActualizarTextoPregunta(ps, idPregunta, nuevoTexto);
      && RespuestasCorrectas(r) == RespuestasCorrectas(ps)
      && forall i :: 0 <= i < |ps| ==>
           PreguntasConRespuestas(r)[i] ==
             if ps[i].id == idPregunta then PreguntasConRespuestas(ps)[i].(pregunta := nuevoTexto)
             else PreguntasConRespuestas(ps)[i]
  {
  }

  /** Editing an answer's text leaves the correct letters unchanged. */
  lemma EditarRespuestaEnGuardado(ps: seq<Pregunta>, idPregunta: int, idRespuesta: Num, nuevoTexto: string)
    ensures RespuestasCorrectas(ActualizarTextoRespuesta(ps, idPregunta, idRespuesta, nuevoTexto)) == RespuestasCorrectas(ps)
  {
    var r := ActualizarTextoRespuesta(ps, idPregunta, idRespuesta, nuevoTexto);
    forall i | 0 <= i < |ps|
      ensures LetraCorrecta(r[i].respuestas) == LetraCorrecta(ps[i].respuestas)
    {
      LetraCorrectaSinTextos(r[i].respuestas, ps[i].respuestas);
    }
  }

  /** With unique ids in 1-4 no two answers share a letter, so each
      answer's text is saved under its own letter. */
  lemma FormatoSinColision(rs: seq<Respuesta>)
    requires IdsUnicos(rs)
    requires forall k :: 0 <= k < |rs| ==> EnRango(rs[k].id)
    ensures forall k :: 0 <= k < |rs| ==> EsUltimaDeSuLetra(rs, k)
    ensures forall k :: 0 <= k < |rs| ==>
      Letra(rs[k].id) in RespuestasFormateadas(rs) && RespuestasFormateadas(rs)[Letra(rs[k].id)] == rs[k].texto
  {
    forall k | 0 <= k < |rs|
      ensures EsUltimaDeSuLetra(rs, k)
    {
      forall j | k < j < |rs|
        ensures Letra(rs[j].id) != Letra(rs[k].id)
      {
        LetraInyectiva(rs[j].id, rs[k].id);
      }
    }
    FormatoSemantica(rs);
  }

  /** In a question whose answer ids are all in 1-4, editing the text of
      an answer id that occurs replaces exactly that letter's text in the
      saved payload. */
  lemma {:induction false} EditarRespuestaEnFormato(rs: seq<Respuesta>, idRespuesta: Num, nuevoTexto: string)
    requires forall k :: 0 <= k < |rs| ==> EnRango(rs[k].id)
    requires TieneId(rs, idRespuesta)
    ensures RespuestasFormateadas(ActualizarRespuestas(rs, idRespuesta, nuevoTexto)) ==
            RespuestasFormateadas(rs)[Letra(idRespuesta) := nuevoTexto]
    decreases |rs|
  {
    var k0 :| 0 <= k0 < |rs| && StrictEquals(rs[k0].id, idRespuesta);
    assert EnRango(idRespuesta) by { assert rs[k0].id == idRespuesta; }
    var n := |rs| - 1;
    var p := rs[..n];
    var r := ActualizarRespuestas(rs, idRespuesta, nuevoTexto);
    var l := Letra(idRespuesta);
    ActualizarPrefijo(rs, idRespuesta, nuevoTexto);
    assert RespuestasFormateadas(r) == RespuestasFormateadas(r[..n])[Letra(r[n].id) := r[n].texto];
    assert RespuestasFormateadas(rs) == RespuestasFormateadas(p)[Letra(rs[n].id) := rs[n].texto];
    if StrictEquals(rs[n].id, idRespuesta) {
      assert Letra(r[n].id) == l && r[n].texto == nuevoTexto by { assert rs[n].id == idRespuesta; }
      if TieneId(p, idRespuesta) {
        EditarRespuestaEnFormato(p, idRespuesta, nuevoTexto);
        MapaSobrescrito(RespuestasFormateadas(p), l, nuevoTexto, nuevoTexto);
      } else {
        assert ActualizarRespuestas(p, idRespuesta, nuevoTexto) == p;
      }
      MapaSobrescrito(RespuestasFormateadas(p), l, rs[n].texto, nuevoTexto);
    } else {
      assert k0 < n && p[k0] == rs[k0];
      EditarRespuestaEnFormato(p, idRespuesta, nuevoTexto);
      LetraInyectiva(rs[n].id, idRespuesta);
      assert r[n] == rs[n];
      MapaConmutado(RespuestasFormateadas(p), l, Letra(rs[n].id), nuevoTexto, rs[n].texto);
    }
  }

  /** Editing a list and then taking its prefix is editing the prefix. */
  lemma ActualizarPrefijo(rs: seq<Respuesta>, idRespuesta: Num, nuevoTexto: string)
    requires |rs| > 0
    ensures ActualizarRespuestas(rs, idRespuesta, nuevoTexto)[..|rs| - 1] ==
            ActualizarRespuestas(rs[..|rs| - 1], idRespuesta, nuevoTexto)
  {
  }

  /** A second write to the same key wins. */
  lemma MapaSobrescrito(m: map<char, string>, a: char, x: string, y: string)
    ensures m[a := x][a := y] == m[a := y]
  {
  }

  /** Writes to different keys commute. */
  lemma MapaConmutado(m: map<char, string>, a: char, b: char, x: string, y: string)
    requires a != b
    ensures m[a := x][b := y] == m[b := y][a := x]
  {
  }

  /** Marking an answer changes none of the letter-keyed answers. */
  lemma MarcarEnFormato(ps: seq<Pregunta>, idPregunta: int, idRespuesta: Num)
    ensures PreguntasConRespuestas(MarcarRespuestaCorrecta(ps, idPregunta, idRespuesta)) == PreguntasConRespuestas(ps)
  {
    var r := MarcarRespuestaCorrecta(ps, idPregunta, idRespuesta);
    forall i | 0 <= i < |ps|
      ensures RespuestasFormateadas(r[i].respuestas) == RespuestasFormateadas(ps[i].respuestas)
    {
      FormatoSinBanderas(r[i].respuestas, ps[i].respuestas);
    }
  }

  /** After marking answer `idRespuesta` of question `idPregunta`, the saved
      letter of that question is the answer's letter if the id occurs among
      its answers, and 'A' otherwise; other questions keep their letters. */
  lemma MarcarEnGuardado(ps: seq<Pregunta>, idPregunta: int, idRespuesta: Num)
    ensures var c := RespuestasCorrectas(MarcarRespuestaCorrecta(ps, idPregunta, idRespuesta));
      forall i :: 0 <= i < |ps| ==>
        c[i].respuestaCorrecta ==
          if ps[i].id != idPregunta then RespuestasCorrectas(ps)[i].respuestaCorrecta
          else if TieneId(ps[i].respuestas, idRespuesta) then Letra(idRespuesta)
          else 'A'
  {
    var r := MarcarRespuestaCorrecta(ps, idPregunta, idRespuesta);
    forall i | 0 <= i < |ps| && ps[i].id == idPregunta
      ensures LetraCorrecta(r[i].respuestas) ==
        if TieneId(ps[i].respuestas, idRespuesta) then Letra(idRespuesta) else 'A'
    {
      var rs := r[i].respuestas;
      match PrimeraCorrecta(rs)
      case None =>
      case Some(k) =>
        assert StrictEquals(ps[i].respuestas[k].id, idRespuesta);
        assert rs[k].id == idRespuesta;
    }
  }

  /** Ids 1, 2, 3, 4, each once: one answer per letter. */
  predicate IdsUnoACuatro(rs: seq<Respuesta>)
  {
    && IdsUnicos(rs)
    && (forall k :: 0 <= k < |rs| ==> EnRango(rs[k].id))
    && (forall n :: 1 <= n <= 4 ==> TieneId(rs, Int(n)))
  }

  /** Whatever the ids, the saved answers are keyed by letters A-D only. */
  lemma FormatoClavesEnRango(rs: seq<Respuesta>)
    ensures RespuestasFormateadas(rs).Keys <= {'A', 'B', 'C', 'D'}
  {
    FormatoSemantica(rs);
    forall l | l in RespuestasFormateadas(rs)
      ensures l in {'A', 'B', 'C', 'D'}
    {
      var k :| 0 <= k < |rs| && Letra(rs[k].id) == l;
      LetraTotal(rs[k].id);
    }
  }

  /** Every id 1-4 that occurs puts its letter among the keys. */
  lemma FormatoClavesPresentes(rs: seq<Respuesta>)
    requires forall n :: 1 <= n <= 4 ==> TieneId(rs, Int(n))
    ensures {'A', 'B', 'C', 'D'} <= RespuestasFormateadas(rs).Keys
  {
    FormatoSemantica(rs);
    forall n | 1 <= n <= 4
      ensures Letra(Int(n)) in RespuestasFormateadas(rs)
    {
      assert TieneId(rs, Int(n));
      var k :| 0 <= k < |rs| && StrictEquals(rs[k].id, Int(n));
      assert rs[k].id == Int(n);
    }
    assert Letra(Int(1)) == 'A' && Letra(Int(2)) == 'B' && Letra(Int(3)) == 'C' && Letra(Int(4)) == 'D';
  }

  /** When the answer ids are exactly 1-4, the saved answers are keyed by
      exactly A, B, C, D, each holding its own answer's text. */
  lemma FormatoCompleto(rs: seq<Respuesta>)
    requires IdsUnoACuatro(rs)
    ensures RespuestasFormateadas(rs).Keys == {'A', 'B', 'C', 'D'}
    ensures forall k :: 0 <= k < |rs| ==> RespuestasFormateadas(rs)[Letra(rs[k].id)] == rs[k].texto
  {
    FormatoSinColision(rs);
    FormatoClavesEnRango(rs);
    FormatoClavesPresentes(rs);
  }

  /** A later answer with the same letter overwrites an earlier one: an
      id outside 1-4 replaces the text saved under 'A'. */
  lemma FormatoColision()
    ensures RespuestasFormateadas([Respuesta(Int(1), "uno", true), Respuesta(Int(7), "siete", false)]) == map['A' := "siete"]
  {
    var rs := [Respuesta(Int(1), "uno", true), Respuesta(Int(7), "siete", false)];
    assert rs[..1] == [Respuesta(Int(1), "uno", true)];
    assert RespuestasFormateadas(rs[..1]) == map['A' := "uno"] by {
      assert rs[..1][..0] == [];
    }
  }

  /** Answers with ids 1, 2, 3, 4 in this order are saved as A-D. */
  lemma FormatoEnOrden(rs: seq<Respuesta>)
    requires |rs| == 4
    requires forall k :: 0 <= k < 4 ==> rs[k].id == Int(k + 1)
    ensures RespuestasFormateadas(rs) ==
      map['A' := rs[0].texto, 'B' := rs[1].texto, 'C' := rs[2].texto, 'D' := rs[3].texto]
  {
    var m1 := RespuestasFormateadas(rs[..1]);
    var m2 := RespuestasFormateadas(rs[..2]);
    var m3 := RespuestasFormateadas(rs[..3]);
    assert m1 == map['A' := rs[0].texto] by {
      assert rs[..1][..0] == [];
      assert RespuestasFormateadas(rs[..1][..0]) == map[];
      assert Letra(rs[..1][0].id) == 'A';
      assert m1 == RespuestasFormateadas(rs[..1][..0])['A' := rs[0].texto];
    }
    assert m2 == m1['B' := rs[1].texto] by {
      assert rs[..2][..1] == rs[..1];
      assert Letra(rs[..2][1].id) == 'B';
    }
    assert m3 == m2['C' := rs[2].texto] by {
      assert rs[..3][..2] == rs[..2];
      assert Letra(rs[..3][2].id) == 'C';
    }
    assert RespuestasFormateadas(rs) == m3['D' := rs[3].texto] by {
      assert Letra(rs[3].id) == 'D';
    }
  }

  /** Loading the keys "1".."4" gives the answer ids 1-4 in order. */
  lemma CargaUnoACuatro(entradas: seq<(string, string)>, correcta: int)
    requires |entradas| == 4
    requires forall k :: 0 <= k < 4 ==> entradas[k].0 == Decimal(k + 1)
    ensures forall k :: 0 <= k < 4 ==> CargarRespuestas(entradas, correcta)[k].id == Int(k + 1)
  {
    forall k | 0 <= k < 4
      ensures ParseInt(entradas[k].0) == Int(k + 1)
    {
      ParseIntDecimal(k + 1);
    }
  }

  /** Entries keyed "1" to "4" are saved as A-D in that order. */
  lemma CargaFormato(entradas: seq<(string, string)>, correcta: int)
    requires |entradas| == 4
    requires forall k :: 0 <= k < 4 ==> entradas[k].0 == Decimal(k + 1)
    ensures RespuestasFormateadas(CargarRespuestas(entradas, correcta)) ==
      map['A' := entradas[0].1, 'B' := entradas[1].1, 'C' := entradas[2].1, 'D' := entradas[3].1]
  {
    CargaUnoACuatro(entradas, correcta);
    FormatoEnOrden(CargarRespuestas(entradas, correcta));
  }

  /** Entries keyed "1" to "4" with `correcta` in 1-4 save the letter of
      `correcta`. */
  lemma CargaLetraCorrecta(entradas: seq<(string, string)>, correcta: int)
    requires |entradas| == 4
    requires forall k :: 0 <= k < 4 ==> entradas[k].0 == Decimal(k + 1)
    requires 1 <= correcta <= 4
    ensures LetraCorrecta(CargarRespuestas(entradas, correcta)) == Letra(Int(correcta))
  {
    var rs := CargarRespuestas(entradas, correcta);
    CargaUnoACuatro(entradas, correcta);
    var c := correcta - 1;
    assert rs[c].correcta;
    assert forall j :: 0 <= j < c ==> !rs[j].correcta;
  }

  /** A stored item with keys "1".."4" and a correct answer in 1..4 saves
      back its own texts under A-D and the letter of its correct answer.
      The entries are taken in the order "1".."4": `Object.entries` lists
      integer-like keys in ascending order whatever the order in the
      stored JSON, so this is the only order such an item arrives in. */
  lemma CargarYGuardar(items: seq<ItemExamen>, i: int)
    requires 0 <= i < |items|
    requires |items[i].respuestas| == 4
    requires forall k :: 0 <= k < 4 ==> items[i].respuestas[k].0 == Decimal(k + 1)
    requires 1 <= items[i].correcta <= 4
    ensures var ps := CargarPreguntas(items);
      var e := items[i].respuestas;
      && PreguntasConRespuestas(ps)[i] ==
           PreguntaFormateada(i + 1, items[i].pregunta,
             map['A' := e[0].1, 'B' := e[1].1, 'C' := e[2].1, 'D' := e[3].1])
      && RespuestasCorrectas(ps)[i] == RespuestaCorrecta(i + 1, Letra(Int(items[i].correcta)))
  {
    CargaFormato(items[i].respuestas, items[i].correcta);
    CargaLetraCorrecta(items[i].respuestas, items[i].correcta);
  }

  /** Opening the editor on a stored exam and saving it without edits sends
      the stored exam back: its id, the loaded metadata, and every stored
      question, in order, numbered from 1 with its own text. */
  lemma AbrirYGuardar(token: Option<string>, examId: Option<string>,
                      meta: Option<MetaAlmacenada>, items: seq<ItemExamen>)
    requires IsTruthy(token) && IsTruthy(examId)
    ensures var p := CargarEditor(token, examId, meta, Some(items));
      && p.Editor?
      && var g := GuardarExamen(p.meta, examId, token, p.preguntas);
      && g.examMeta == CargarMetadatos(meta)
      && g.peticion.Some?
      && g.peticion.value.id == examId
      && g.peticion.value.titulo == CargarMetadatos(meta).title
      && g.peticion.value.asignatura == CargarMetadatos(meta).subject
      && g.peticion.value.descripcion == CargarMetadatos(meta).description
      && |g.peticion.value.preguntas| == |items|
      && |g.peticion.value.respuestasCorrectas| == |items|
      && forall i :: 0 <= i < |items| ==>
           && g.peticion.value.preguntas[i].numeroPregunta == i + 1
           && g.peticion.value.preguntas[i].pregunta == items[i].pregunta
           && g.peticion.value.respuestasCorrectas[i].numeroPregunta == i + 1
  {
    var p := CargarEditor(token, examId, meta, Some(items));
    assert p.preguntas == CargarPreguntas(items);
  }
}
