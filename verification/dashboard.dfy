/** The dashboard page: the model catalog and its logos, the search
    filter, the automatic model choice, the PDF-only upload filter and the
    multipart form sent to generate an exam. */
module Dashboard {
  import opened Base
  import opened Text

  // ---------------------------------------------------------------------
  // Data model

  /** A selectable AI model: display name, backend identifier, logo path. */
  datatype Modelo = Modelo(name: string, value: string, image: string)

  /** A browser `File`, as far as the page looks at it: its name and its
      `type` (the MIME type). */
  datatype Archivo = Archivo(name: string, mime: string)

  const LogoClaude := "/images/claude-logo.png"
  const LogoGrok := "/images/grok-logo.png"
  const LogoGemini := "/images/gemini-logo.png"
  const LogoGpt := "/images/gpt-logo.png"

  // ---------------------------------------------------------------------
  // Catalog

  /** The keywords that choose a logo, in the order they are tried. */
  const TablaLogos: seq<(string, string)> :=
    [("claude", LogoClaude), ("grok", LogoGrok), ("gemini", LogoGemini)]

  /** The logo of the first keyword of `tabla` that `clave` contains,
      `defecto` when none does. */
  function PrimerLogo(tabla: seq<(string, string)>, clave: string, defecto: string): (logo: string)
    ensures logo == defecto || exists i :: 0 <= i < |tabla| && logo == tabla[i].1
    ensures (forall i :: 0 <= i < |tabla| ==> !Contains(clave, tabla[i].0)) ==> logo == defecto
    ensures forall i :: (0 <= i < |tabla| && Contains(clave, tabla[i].0) &&
      (forall j :: 0 <= j < i ==> !Contains(clave, tabla[j].0))) ==> logo == tabla[i].1
  {
    if |tabla| == 0 then defecto
    else if Contains(clave, tabla[0].0) then tabla[0].1
    else
      var logo := PrimerLogo(tabla[1..], clave, defecto);
      assert forall i :: 1 <= i < |tabla| ==> tabla[1..][i - 1] == tabla[i];
      logo
  }

  /** The logo for a model name: the lower-cased name is tested for
      "claude", then "grok", then "gemini"; otherwise the GPT logo. */
  function Logo(name: string): (imagen: string)
  {
    var clave := ToLower(name);
    if Contains(clave, "claude") then LogoClaude
    else if Contains(clave, "grok") then LogoGrok
    else if Contains(clave, "gemini") then LogoGemini
    else LogoGpt
  }

  /** The logo chain is the first-match search over the keyword table,
      with the GPT logo as the fallback. */
  lemma LogoPorTabla(name: string)
    ensures Logo(name) == PrimerLogo(TablaLogos, ToLower(name), LogoGpt)
  {
    var k := ToLower(name);
    var t := TablaLogos;
    assert t[1..] == [("grok", LogoGrok), ("gemini", LogoGemini)];
    assert t[1..][1..] == [("gemini", LogoGemini)];
    assert t[1..][1..][1..] == [];
    assert PrimerLogo(t[1..][1..][1..], k, LogoGpt) == LogoGpt;
    assert PrimerLogo(t[1..][1..], k, LogoGpt) == if Contains(k, "gemini") then LogoGemini else LogoGpt;
    assert PrimerLogo(t[1..], k, LogoGpt) ==
      if Contains(k, "grok") then LogoGrok else PrimerLogo(t[1..][1..], k, LogoGpt);
    assert PrimerLogo(t, k, LogoGpt) ==
      if Contains(k, "claude") then LogoClaude else PrimerLogo(t[1..], k, LogoGpt);
  }

  /** The first keyword wins: a name mentioning "claude" gets the Claude
      logo whatever else it mentions, and the GPT logo is chosen exactly
      when no keyword occurs. */
  lemma LogoPrecedencia(name: string)
    ensures Contains(ToLower(name), "claude") ==> Logo(name) == LogoClaude
    ensures !Contains(ToLower(name), "claude") && Contains(ToLower(name), "grok") ==> Logo(name) == LogoGrok
    ensures Logo(name) == LogoGpt <==>
      forall i :: 0 <= i < |TablaLogos| ==> !Contains(ToLower(name), TablaLogos[i].0)
  {
    LogoPorTabla(name);
  }

  /** Matching ignores case: names equal up to case get the same logo. */
  lemma LogoSinMayusculas(a: string, b: string)
    requires ToLower(a) == ToLower(b)
    ensures Logo(a) == Logo(b)
    ensures Logo(a) == Logo(ToLower(a))
  {
    ToLowerIdempotent(a);
  }

  /** One model per backend (name, identifier) pair, in entry order. */
  function Catalogo(entradas: seq<(string, string)>): (ms: seq<Modelo>)
    ensures |ms| == |entradas|
    ensures forall i :: 0 <= i < |ms| ==>
      ms[i].name == entradas[i].0 && ms[i].value == entradas[i].1 && ms[i].image == Logo(entradas[i].0)
  {
    seq(|entradas|, i requires 0 <= i < |entradas| => Modelo(entradas[i].0, entradas[i].1, Logo(entradas[i].0)))
  }

  /** The example catalog shown when the models cannot be fetched. */
  const CatalogoDeEjemplo: seq<Modelo> := [
    Modelo("OpenAI GPT 4o mini", "gpt-4o-mini", LogoGpt),
    Modelo("Claude 3.5 Sonnet", "claude-3-5-sonnet", LogoClaude),
    Modelo("Gemini 1.5 Flash", "gemini-1.5-flash", LogoGemini),
    Modelo("Grok 1.5", "grok-1.5", LogoGrok)
  ]

  /** The (name, identifier) pairs of the example catalog. */
  const EntradasDeEjemplo: seq<(string, string)> := [
    ("OpenAI GPT 4o mini", "gpt-4o-mini"),
    ("Claude 3.5 Sonnet", "claude-3-5-sonnet"),
    ("Gemini 1.5 Flash", "gemini-1.5-flash"),
    ("Grok 1.5", "grok-1.5")
  ]

  // The example names, lower-cased, and which keywords they contain; one
  // fact per lemma, since the verifier unrolls the scan over literal
  // strings and the facts get expensive together.

  lemma GptEnMinusculas() ensures ToLower("OpenAI GPT 4o mini") == "openai gpt 4o mini" {}
  lemma ClaudeEnMinusculas() ensures ToLower("Claude 3.5 Sonnet") == "claude 3.5 sonnet" {}
  lemma GeminiEnMinusculas() ensures ToLower("Gemini 1.5 Flash") == "gemini 1.5 flash" {}
  lemma GrokEnMinusculas() ensures ToLower("Grok 1.5") == "grok 1.5" {}

  /** The keywords tested before the matching one do not occur in the
      lower-cased example names (none occurs in the GPT name). Each case
      is its own branch, so the scans over the literals stay apart. */
  lemma SinClave(nombre: string, clave: string)
    requires || (nombre == "openai gpt 4o mini" && (clave == "claude" || clave == "grok" || clave == "gemini"))
             || (nombre == "gemini 1.5 flash" && (clave == "claude" || clave == "grok"))
             || (nombre == "grok 1.5" && clave == "claude")
    ensures !Contains(nombre, clave)
  {
    if nombre == "openai gpt 4o mini" {
      if clave == "claude" { NoContienePar("openai gpt 4o mini", "claude"); }
      else if clave == "grok" { NoContienePar("openai gpt 4o mini", "grok"); }
      else { NoContienePar("openai gpt 4o mini", "gemini"); }
    } else if nombre == "gemini 1.5 flash" {
      if clave == "claude" { NoContienePar("gemini 1.5 flash", "claude"); }
      else { NoContienePar("gemini 1.5 flash", "grok"); }
    } else {
      NoContienePar("grok 1.5", "claude");
    }
  }

  lemma ClaudeConClaude() ensures Contains("claude 3.5 sonnet", "claude")
  { assert StartsWith("claude 3.5 sonnet", "claude"); }

  lemma GeminiConGemini() ensures Contains("gemini 1.5 flash", "gemini")
  { assert StartsWith("gemini 1.5 flash", "gemini"); }

  lemma GrokConGrok() ensures Contains("grok 1.5", "grok")
  { assert StartsWith("grok 1.5", "grok"); }

  lemma LogoEjemploGpt()
    ensures CatalogoDeEjemplo[0].image == Logo(CatalogoDeEjemplo[0].name)
  {
    GptEnMinusculas();
    SinClave("openai gpt 4o mini", "claude");
    SinClave("openai gpt 4o mini", "grok");
    SinClave("openai gpt 4o mini", "gemini");
  }

  lemma LogoEjemploClaude()
    ensures CatalogoDeEjemplo[1].image == Logo(CatalogoDeEjemplo[1].name)
  {
    ClaudeEnMinusculas(); ClaudeConClaude();
  }

  lemma LogoEjemploGemini()
    ensures CatalogoDeEjemplo[2].image == Logo(CatalogoDeEjemplo[2].name)
  {
    GeminiEnMinusculas(); GeminiConGemini();
    SinClave("gemini 1.5 flash", "claude");
    SinClave("gemini 1.5 flash", "grok");
  }

  lemma LogoEjemploGrok()
    ensures CatalogoDeEjemplo[3].image == Logo(CatalogoDeEjemplo[3].name)
  {
    GrokEnMinusculas(); GrokConGrok();
    SinClave("grok 1.5", "claude");
  }

  /** A list of models whose names, identifiers and logos agree with the
      entries and the logo rule is the catalog of those entries. */
  lemma CatalogoPorLogos(entradas: seq<(string, string)>, ms: seq<Modelo>)
    requires |entradas| == |ms|
    requires forall i :: 0 <= i < |ms| ==> ms[i].name == entradas[i].0 && ms[i].value == entradas[i].1
    requires forall i :: 0 <= i < |ms| ==> ms[i].image == Logo(ms[i].name)
    ensures Catalogo(entradas) == ms
  {
  }

  /** The logos written into the example catalog by hand are the ones the
      logo rule chooses for those names, so the example catalog is the
      catalog of its own entries. */
  lemma CatalogoDeEjemploCoherente()
    ensures forall i :: 0 <= i < |CatalogoDeEjemplo| ==>
      CatalogoDeEjemplo[i].image == Logo(CatalogoDeEjemplo[i].name)
    ensures CatalogoDeEjemplo == Catalogo(EntradasDeEjemplo)
  {
    forall i | 0 <= i < |CatalogoDeEjemplo|
      ensures CatalogoDeEjemplo[i].image == Logo(CatalogoDeEjemplo[i].name)
    {
      if i == 0 { LogoEjemploGpt(); }
      else if i == 1 { LogoEjemploClaude(); }
      else if i == 2 { LogoEjemploGemini(); }
      else { LogoEjemploGrok(); }
    }
    CatalogoPorLogos(EntradasDeEjemplo, CatalogoDeEjemplo);
  }

  /** The fetched catalog, or the example catalog when the request or its
      JSON failed (`None`). */
  function CargarCatalogo(respuesta: Option<seq<(string, string)>>): (ms: seq<Modelo>)
    ensures respuesta.None? ==> ms == CatalogoDeEjemplo
    ensures respuesta.Some? ==> ms == Catalogo(respuesta.value)
  {
    match respuesta
    case None => CatalogoDeEjemplo
    case Some(entradas) => Catalogo(entradas)
  }

  /** Whether or not the request succeeded, the list shown is the catalog
      of some name/value entries, and every model carries the logo its
      name calls for. */
  lemma CargarCatalogoCoherente(respuesta: Option<seq<(string, string)>>)
    ensures CargarCatalogo(respuesta) ==
      Catalogo(match respuesta case None => EntradasDeEjemplo case Some(e) => e)
    ensures forall i :: 0 <= i < |CargarCatalogo(respuesta)| ==>
      CargarCatalogo(respuesta)[i].image == Logo(CargarCatalogo(respuesta)[i].name)
  {
    CatalogoDeEjemploCoherente();
  }

  // ---------------------------------------------------------------------
  // Search

  predicate Coincide(m: Modelo, busqueda: string)
  {
    Contains(ToLower(m.name), ToLower(busqueda))
  }

  /** `filteredModels`: the models whose lower-cased name contains the
      lower-cased search term, in catalog order. */
  function Filtrar(modelos: seq<Modelo>, busqueda: string): (r: seq<Modelo>)
    ensures forall m :: m in r <==> m in modelos && Coincide(m, busqueda)
    ensures forall m :: multiset(r)[m] == if Coincide(m, busqueda) then multiset(modelos)[m] else 0
    ensures IsSubsequence(r, modelos)
    ensures busqueda == "" ==> r == modelos
  {
    var coincide := (m: Modelo) => Coincide(m, busqueda);
    if busqueda == "" then
      assert forall m :: m in modelos ==> coincide(m) by {
        forall m | m in modelos ensures coincide(m) { ContainsEmpty(ToLower(m.name)); }
      }
      FilterAll(coincide, modelos);
      Filter(coincide, modelos)
    else
      Filter(coincide, modelos)
  }

  /** The search ignores the case of the term. */
  lemma FiltrarSinMayusculas(modelos: seq<Modelo>, busqueda: string)
    ensures Filtrar(modelos, busqueda) == Filtrar(modelos, ToLower(busqueda))
  {
    ToLowerIdempotent(busqueda);
    var f := (m: Modelo) => Coincide(m, busqueda);
    var g := (m: Modelo) => Coincide(m, ToLower(busqueda));
    assert forall m :: f(m) == g(m);
    FilterSame(f, g, modelos);
  }

  // ---------------------------------------------------------------------
  // Automatic choice

  const Preferido := "chat gpt 4.5 preview"
  const PrefijoGpt4 := "chat gpt 4."

  /** What the auto-select effect does to the selected model. */
  datatype Efecto = SinCambio | Selecciona(modelo: Modelo)

  /** `findIndex` of the first model whose lower-cased name contains the
      preferred name. */
  function PrimerPreferido(ms: seq<Modelo>): (r: Option<nat>)
    ensures r.Some? ==> r.value < |ms| && Contains(ToLower(ms[r.value].name), Preferido)
    ensures r.Some? ==> forall j :: 0 <= j < r.value ==> !Contains(ToLower(ms[j].name), Preferido)
    ensures r.None? ==> forall j :: 0 <= j < |ms| ==> !Contains(ToLower(ms[j].name), Preferido)
  {
    if |ms| == 0 then None
    else if Contains(ToLower(ms[0].name), Preferido) then Some(0)
    else
      match PrimerPreferido(ms[1..])
      case None => None
      case Some(k) => Some(k + 1)
  }

  predicate EsGpt4(m: Modelo)
  {
    StartsWith(ToLower(m.name), PrefijoGpt4)
  }

  /** The outcomes the effect may produce: nothing when it is off or the
      list is empty; else the first preferred model; else any model whose
      name starts with "chat gpt 4."; else any model of the list. */
  predicate SeleccionPermitida(activa: bool, filtrados: seq<Modelo>, e: Efecto)
  {
    if !activa || |filtrados| == 0 then e == SinCambio
    else
      match PrimerPreferido(filtrados)
      case Some(i) => e == Selecciona(filtrados[i])
      case None =>
        e.Selecciona? &&
        if exists m :: m in filtrados && EsGpt4(m)
        then e.modelo in filtrados && EsGpt4(e.modelo)
        else e.modelo in filtrados
  }

  /** The auto-select effect; the random index is a nondeterministic
      choice among the candidates. */
  method AutoSeleccion(activa: bool, filtrados: seq<Modelo>) returns (e: Efecto)
    ensures SeleccionPermitida(activa, filtrados, e)
    ensures e.SinCambio? <==> !activa || |filtrados| == 0
    ensures e.Selecciona? ==> e.modelo in filtrados
  {
    if !activa || |filtrados| == 0 {
      return SinCambio;
    }
    var idx := PrimerPreferido(filtrados);
    if idx.Some? {
      return Selecciona(filtrados[idx.value]);
    }
    var candidatos := Filter(EsGpt4, filtrados);
    if |candidatos| > 0 {
      var i :| 0 <= i < |candidatos|;
      assert candidatos[i] in candidatos;
      return Selecciona(candidatos[i]);
    }
    var i :| 0 <= i < |filtrados|;
    return Selecciona(filtrados[i]);
  }

  /** Whatever the effect picks is one of the listed models. */
  lemma SeleccionEsMiembro(activa: bool, filtrados: seq<Modelo>, e: Efecto)
    requires SeleccionPermitida(activa, filtrados, e)
    ensures e.Selecciona? ==> e.modelo in filtrados
  {
  }

  // ---------------------------------------------------------------------
  // Upload

  predicate EsPdf(f: Archivo)
  {
    f.mime == "application/pdf" || EndsWith(ToLower(f.name), ".pdf")
  }

  /** The file list after an upload, and whether the "only PDF" alert
      was shown. */
  datatype Subida = Subida(archivos: seq<Archivo>, aviso: bool)

  /** The drop and file-input handlers: the PDFs among `seleccion` are
      appended, in order, after the files already chosen; the alert fires
      when something was rejected. */
  function AgregarPdfs(previos: seq<Archivo>, seleccion: seq<Archivo>): (s: Subida)
    ensures |previos| <= |s.archivos| && s.archivos[..|previos|] == previos
    ensures forall f :: f in s.archivos[|previos|..] <==> f in seleccion && EsPdf(f)
    ensures forall f :: multiset(s.archivos[|previos|..])[f] == if EsPdf(f) then multiset(seleccion)[f] else 0
    ensures IsSubsequence(s.archivos[|previos|..], seleccion)
    ensures s.aviso <==> exists f :: f in seleccion && !EsPdf(f)
  {
    var pdfs := Filter(EsPdf, seleccion);
    assert (previos + pdfs)[|previos|..] == pdfs;
    Subida(previos + pdfs, |pdfs| != |seleccion|)
  }

  /** The file-input handler returns early when the input has no file
      list; otherwise it behaves as a drop. */
  function AlElegir(previos: seq<Archivo>, elegidos: Option<seq<Archivo>>): (s: Subida)
    ensures elegidos.None? ==> s == Subida(previos, false)
    ensures elegidos.Some? ==> s == AgregarPdfs(previos, elegidos.value)
  {
    match elegidos
    case None => Subida(previos, false)
    case Some(sel) => AgregarPdfs(previos, sel)
  }

  /** A list of PDFs is appended whole, without an alert. */
  lemma AgregarSoloPdfs(previos: seq<Archivo>, seleccion: seq<Archivo>)
    requires forall f :: f in seleccion ==> EsPdf(f)
    ensures AgregarPdfs(previos, seleccion) == Subida(previos + seleccion, false)
  {
    FilterAll(EsPdf, seleccion);
  }

  // ---------------------------------------------------------------------
  // Generation request

  datatype TipoGeneracion = Exam | Exercise

  function NombreTipo(t: TipoGeneracion): string
  {
    match t
    case Exam => "exam"
    case Exercise => "exercise"
  }

  /** One `FormData.append`: a text field, or a file with its file name. */
  datatype Campo =
    | CampoTexto(nombre: string, valor: string)
    | CampoArchivo(nombre: string, archivo: Archivo, nombreArchivo: string)

  datatype Generacion = Ignorada | Envia(campos: seq<Campo>)

  /** `handleGenerate`: nothing happens without a selected model, without
      files, or while a generation runs; otherwise the form holds the
      model identifier, the type, and one `files` entry per file. */
  function Generar(seleccionado: Option<Modelo>, archivos: seq<Archivo>, generando: bool, tipo: TipoGeneracion): (g: Generacion)
    ensures g.Ignorada? <==> seleccionado.None? || |archivos| == 0 || generando
    ensures g.Envia? ==> |g.campos| == 2 + |archivos|
    ensures g.Envia? ==> g.campos[0] == CampoTexto("model", seleccionado.value.value)
    ensures g.Envia? ==> g.campos[1] == CampoTexto("type", NombreTipo(tipo))
    ensures g.Envia? ==> forall i :: 0 <= i < |archivos| ==>
      g.campos[2 + i] == CampoArchivo("files", archivos[i], archivos[i].name)
  {
    if seleccionado.None? || |archivos| == 0 || generando then Ignorada
    else
      Envia([CampoTexto("model", seleccionado.value.value), CampoTexto("type", NombreTipo(tipo))]
            + CamposDeArchivos(archivos))
  }

  function CamposDeArchivos(archivos: seq<Archivo>): (cs: seq<Campo>)
    ensures |cs| == |archivos|
    ensures forall i :: 0 <= i < |archivos| ==> cs[i] == CampoArchivo("files", archivos[i], archivos[i].name)
  {
    seq(|archivos|, i requires 0 <= i < |archivos| => CampoArchivo("files", archivos[i], archivos[i].name))
  }

  /** The files a server reads back from the form: the `files` entries,
      in order. */
  function ArchivosEnviados(campos: seq<Campo>): seq<Archivo>
  {
    if |campos| == 0 then []
    else
      var resto := ArchivosEnviados(campos[1..]);
      match campos[0]
      case CampoArchivo(nombre, f, _) => if nombre == "files" then [f] + resto else resto
      case CampoTexto(_, _) => resto
  }

  /** The value of the first text field called `nombre`. */
  function Valor(campos: seq<Campo>, nombre: string): Option<string>
  {
    if |campos| == 0 then None
    else if campos[0].CampoTexto? && campos[0].nombre == nombre then Some(campos[0].valor)
    else Valor(campos[1..], nombre)
  }

  lemma {:induction false} ArchivosDeCampos(archivos: seq<Archivo>)
    ensures ArchivosEnviados(CamposDeArchivos(archivos)) == archivos
  {
    if |archivos| > 0 {
      assert CamposDeArchivos(archivos)[1..] == CamposDeArchivos(archivos[1..]);
      ArchivosDeCampos(archivos[1..]);
    }
  }

  /** Reading the form back gives the selected model's identifier, the
      type, and exactly the uploaded files in order. */
  lemma GenerarIdaYVuelta(seleccionado: Option<Modelo>, archivos: seq<Archivo>, generando: bool, tipo: TipoGeneracion)
    requires Generar(seleccionado, archivos, generando, tipo).Envia?
    ensures var cs := Generar(seleccionado, archivos, generando, tipo).campos;
      && Valor(cs, "model") == Some(seleccionado.value.value)
      && Valor(cs, "type") == Some(NombreTipo(tipo))
      && ArchivosEnviados(cs) == archivos
  {
    var cs := Generar(seleccionado, archivos, generando, tipo).campos;
    assert cs[1..][1..] == CamposDeArchivos(archivos);
    assert "type" != "model";
    ArchivosDeCampos(archivos);
  }

  /** The "Crear examen" button's `disabled` condition. */
  predicate BotonCrearDeshabilitado(seleccionado: Option<Modelo>, archivos: seq<Archivo>, generando: bool)
  {
    seleccionado.None? || |archivos| == 0 || generando
  }

  /** The button is disabled exactly when clicking it would do nothing. */
  lemma BotonSegunGuarda(seleccionado: Option<Modelo>, archivos: seq<Archivo>, generando: bool, tipo: TipoGeneracion)
    ensures BotonCrearDeshabilitado(seleccionado, archivos, generando) <==>
      Generar(seleccionado, archivos, generando, tipo).Ignorada?
  {
  }
}
