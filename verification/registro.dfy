/** The registration page's submit handler, up to the point where the
    request is sent: the stored-token redirect, the password confirmation
    check, and the institutional mail check on the normalised mail. */
module Registro {
  import opened Base
  import opened Text

  const DominioMail := "@educa.jcyl.es"
  const ErrorContrasenas := "Las contrase\U{00F1}as no coinciden"
  const ErrorMail := "El mail no es v\U{00E1}lido"

  /** The JSON body posted to `/register`. */
  datatype CuerpoRegistro = CuerpoRegistro(nombre: string, password: string, mail: string)

  datatype Accion =
    | IrADashboard                         // a session already exists
    | NoEnvia                              // a validation error is shown
    | EnviaRegistro(cuerpo: CuerpoRegistro)

  /** The decision together with the form state it leaves behind. */
  datatype Decision = Decision(accion: Accion, isLoading: bool, error: string)

  /** `email.toLowerCase().trim()`. */
  function NormalizarMail(email: string): (mail: string)
    ensures forall i :: 0 <= i < |mail| ==> !IsUpper(mail[i])
    ensures mail == [] || (!IsWhiteSpace(mail[0]) && !IsWhiteSpace(mail[|mail| - 1]))
    ensures exists i :: Recorte(ToLower(email), mail, i)
  {
    var lower := ToLower(email);
    TrimEdges(lower);
    TrimIsSlice(lower);
    RecorteSinMayusculas(email);
    Trim(lower)
  }

  /** Cutting the lower-cased mail leaves no upper-case letter. */
  lemma RecorteSinMayusculas(email: string)
    ensures forall i :: 0 <= i < |Trim(ToLower(email))| ==> !IsUpper(Trim(ToLower(email))[i])
  {
    var lower := ToLower(email);
    var mail := Trim(lower);
    var j := |lower| - |TrimStart(lower)|;
    TrimIsSlice(lower);
    ToLowerIdempotent(email);
    forall i | 0 <= i < |mail|
      ensures !IsUpper(mail[i])
    {
      assert mail[i] == lower[j + i];
    }
  }

  predicate MailValido(email: string)
  {
    EndsWith(NormalizarMail(email), DominioMail)
  }

  /** `handleSubmit` up to the `fetch`. A stored token redirects at once
      and leaves `isLoading` set; a password mismatch is reported before
      the mail is looked at; only a matching password and an institutional
      mail send the request, with the normalised mail. */
  function EnviarFormulario(token: Option<string>, nombre: string, email: string,
                            password: string, confirmacion: string): (d: Decision)
    ensures d.accion.IrADashboard? <==> IsTruthy(token)
    ensures d.accion.IrADashboard? ==> d.isLoading && d.error == ""
    ensures !IsTruthy(token) && password != confirmacion ==>
      d == Decision(NoEnvia, false, ErrorContrasenas)
    ensures !IsTruthy(token) && password == confirmacion && !MailValido(email) ==>
      d == Decision(NoEnvia, false, ErrorMail)
    ensures d.accion.EnviaRegistro? <==> !IsTruthy(token) && password == confirmacion && MailValido(email)
    ensures d.accion.EnviaRegistro? ==>
      && d.accion.cuerpo == CuerpoRegistro(nombre, password, NormalizarMail(email))
      && d.isLoading && d.error == ""
  {
    if IsTruthy(token) then Decision(IrADashboard, true, "")
    else if password != confirmacion then Decision(NoEnvia, false, ErrorContrasenas)
    else
      var mail := NormalizarMail(email);
      if !EndsWith(mail, DominioMail) then Decision(NoEnvia, false, ErrorMail)
      else Decision(EnviaRegistro(CuerpoRegistro(nombre, password, mail)), true, "")
  }

  /** Normalising a normalised mail changes nothing. */
  lemma NormalizarIdempotente(email: string)
    ensures NormalizarMail(NormalizarMail(email)) == NormalizarMail(email)
  {
    var l := ToLower(email);
    ToLowerIdempotent(email);
    TrimLower(l);
    TrimIdempotent(l);
  }

  /** The mail that was sent is accepted again as it is: when a form is
      sent, submitting it again with the sent mail sends the same body. */
  lemma ReenvioMismoCuerpo(nombre: string, email: string, password: string)
    ensures var a := EnviarFormulario(None, nombre, email, password, password).accion;
      a.EnviaRegistro? ==> EnviarFormulario(None, nombre, a.cuerpo.mail, password, password).accion == a
  {
    NormalizarIdempotente(email);
  }

  /** Case and surrounding blanks do not matter to the mail check. */
  lemma MailSinMayusculas(email: string)
    ensures MailValido(email) <==> MailValido(ToLower(email))
    ensures MailValido(email) <==> MailValido(Trim(email))
  {
    ToLowerIdempotent(email);
    TrimLower(email);
    TrimIdempotent(ToLower(email));
  }
}
