/**
 * The express-validator chains the routes put in front of the controllers.
 * Each chain sanitizes the fields it names in place (trim, normalise,
 * escape), collects one error per failed check, and ends in
 * `ValidationResultExpress`, which answers 400 with the collected errors or
 * calls `next()`.
 */
module ValidatorManager {
  import opened Wrappers
  import Text
  import Http

  const EmailMessage: string := "Formato de email incorrecto."
  const PasswordMessage: string := "Formato de password incorrecto."
  const MismatchMessage: string := "No coinciden las passwords."
  const LinkMessage: string := "Formato de link incorrecto."
  const UnreachableMessage: string := "El link no es una URL válida."
  const ParamMessage: string := "Parámetro ID no válido"

  /** The password lengths `isLength({ min: 6, max: 12 })` accepts. */
  const MinPassword: nat := 6
  const MaxPassword: nat := 12

  /** `ValidationResultExpress`: 400 with every collected error, or `next()` when there is none. */
  function ValidationResultExpress(req: Http.Request, errors: seq<Http.FieldError>): (r: Http.Step)
    ensures r.Halt? <==> errors != []
    ensures r.Halt? ==> r.reply == Http.Json(400, Http.Invalid(errors))
    ensures r.Next? ==> r.req == req
  {
    if errors != [] then Http.Halt(Http.Json(400, Http.Invalid(errors))) else Http.Next(req)
  }

  /** A body field's error, carrying the value that failed. */
  function BodyError(value: string, msg: string, param: string): Http.FieldError {
    Http.FieldError(value, msg, param, "body")
  }

  /** `body('email', ...).trim().isEmail().normalizeEmail()`: the sanitized email and its errors. */
  function EmailChain(o: Http.Oracles, raw: string): (r: (string, seq<Http.FieldError>))
    ensures r.1 == [] <==> o.isEmail(Text.Trim(raw))
  {
    var t := Text.Trim(raw);
    (o.normalizeEmail(t), if o.isEmail(t) then [] else [BodyError(t, EmailMessage, "email")])
  }

  /** Whether a trimmed password has an accepted length. */
  predicate LengthOk(t: string) {
    MinPassword <= |t| <= MaxPassword
  }

  /**
   * The custom check of the register password chain. It throws the mismatch
   * error unless the trimmed password is strictly equal to `repassword` (an
   * absent `repassword` is `undefined`, equal to no string); otherwise it
   * returns the value, and an empty value is falsy, which express-validator
   * reports with the chain's own message.
   */
  function RepasswordCheck(t: string, repassword: Option<string>): (r: seq<Http.FieldError>)
    ensures r == [] <==> repassword == Some(t) && t != []
    ensures |r| <= 1
  {
    if repassword != Some(t) then [BodyError(t, MismatchMessage, "password")]
    else if t == [] then [BodyError(t, PasswordMessage, "password")]
    else []
  }

  /**
   * The register password chain: trim, the length check, then the custom
   * check against `repassword`; both checks run and each failed one adds
   * exactly one error.
   */
  function RegisterPasswordChain(raw: string, repassword: Option<string>): (r: (string, seq<Http.FieldError>))
    ensures r.0 == Text.Trim(raw)
    ensures r.1 == [] <==> LengthOk(Text.Trim(raw)) && repassword == Some(Text.Trim(raw))
    ensures |r.1| == (if LengthOk(Text.Trim(raw)) then 0 else 1)
                   + (if repassword == Some(Text.Trim(raw)) && Text.Trim(raw) != [] then 0 else 1)
  {
    var t := Text.Trim(raw);
    (t, (if LengthOk(t) then [] else [BodyError(t, PasswordMessage, "password")]) + RepasswordCheck(t, repassword))
  }

  /** The login password chain: trim and the length check only. */
  function LoginPasswordChain(raw: string): (r: (string, seq<Http.FieldError>))
    ensures r.0 == Text.Trim(raw)
    ensures r.1 == [] <==> LengthOk(Text.Trim(raw))
  {
    var t := Text.Trim(raw);
    (t, if LengthOk(t) then [] else [BodyError(t, PasswordMessage, "password")])
  }

  /** `bodyRegisterValidator`. */
  function BodyRegister(o: Http.Oracles, req: Http.Request): Http.Step {
    var email := EmailChain(o, req.body.email);
    var password := RegisterPasswordChain(req.body.password, req.body.repassword);
    ValidationResultExpress(req.(body := req.body.(email := email.0, password := password.0)), email.1 + password.1)
  }

  /** `bodyLoginValidator`. */
  function BodyLogin(o: Http.Oracles, req: Http.Request): Http.Step {
    var email := EmailChain(o, req.body.email);
    var password := LoginPasswordChain(req.body.password);
    ValidationResultExpress(req.(body := req.body.(email := email.0, password := password.0)), email.1 + password.1)
  }

  /**
   * `bodyLinkValidator`: trim, `notEmpty`, and the reachability check on the
   * trimmed link; both checks run and each adds its own error.
   */
  function BodyLink(o: Http.Oracles, req: Http.Request): Http.Step {
    var t := Text.Trim(req.body.longLink);
    var errors := (if t != [] then [] else [BodyError(t, LinkMessage, "longLink")])
      + (if o.reachable(t) then [] else [BodyError(t, UnreachableMessage, "longLink")]);
    ValidationResultExpress(req.(body := req.body.(longLink := t)), errors)
  }

  /** `paramLinkValidator`: trim, `notEmpty`, then `escape`. */
  function ParamLink(req: Http.Request): Http.Step {
    var t := Text.Trim(req.param);
    var errors := if t != [] then [] else [Http.FieldError(t, ParamMessage, "id", "params")];
    ValidationResultExpress(req.(param := Escape(t)), errors)
  }

  /**
   * Registering passes exactly when the trimmed email is an email, the trimmed
   * password has 6 to 12 characters and equals `repassword`; the request then
   * goes on with the normalised email and the trimmed password.
   */
  lemma RegisterPassesIff(o: Http.Oracles, req: Http.Request)
    ensures BodyRegister(o, req).Next? <==>
      o.isEmail(Text.Trim(req.body.email)) && LengthOk(Text.Trim(req.body.password)) && req.body.repassword == Some(Text.Trim(req.body.password))
    ensures BodyRegister(o, req).Next? ==>
      BodyRegister(o, req).req == req.(body := req.body.(email := o.normalizeEmail(Text.Trim(req.body.email)), password := Text.Trim(req.body.password)))
    ensures BodyRegister(o, req).Halt? ==> BodyRegister(o, req).reply.Json? && BodyRegister(o, req).reply.status == 400
  {
    var email := EmailChain(o, req.body.email);
    var password := RegisterPasswordChain(req.body.password, req.body.repassword);
    assert email.1 + password.1 == [] <==> email.1 == [] && password.1 == [];
  }

  /** A short password that also differs from `repassword` is reported twice, once per check. */
  lemma ShortMismatchReportsBoth(o: Http.Oracles, req: Http.Request)
    requires o.isEmail(Text.Trim(req.body.email))
    requires req.body.password == "abc" && req.body.repassword == Some("abd")
    ensures BodyRegister(o, req) == Http.Halt(Http.Json(400, Http.Invalid(
      [BodyError("abc", PasswordMessage, "password"), BodyError("abc", MismatchMessage, "password")])))
  {
    assert Text.TrimStart("abc") == "abc";
    assert Text.TrimEnd("abc") == "abc";
    var email := EmailChain(o, req.body.email);
    var password := RegisterPasswordChain(req.body.password, req.body.repassword);
    assert email.1 == [];
    assert !LengthOk("abc") && Some("abd") != Some("abc");
    assert password.1 == [BodyError("abc", PasswordMessage, "password"), BodyError("abc", MismatchMessage, "password")];
    assert email.1 + password.1 == password.1;
  }

  /**
   * An empty password confirmed by an empty `repassword` is reported twice
   * with the chain's message: once by the length check and once because the
   * custom check returns the falsy empty value.
   */
  lemma EmptyPasswordReportedTwice(o: Http.Oracles, req: Http.Request)
    requires o.isEmail(Text.Trim(req.body.email))
    requires req.body.password == "" && req.body.repassword == Some("")
    ensures BodyRegister(o, req) == Http.Halt(Http.Json(400, Http.Invalid(
      [BodyError("", PasswordMessage, "password"), BodyError("", PasswordMessage, "password")])))
  {
    var email := EmailChain(o, req.body.email);
    var password := RegisterPasswordChain(req.body.password, req.body.repassword);
    assert email.1 == [];
    assert password.1 == [BodyError("", PasswordMessage, "password"), BodyError("", PasswordMessage, "password")];
    assert email.1 + password.1 == password.1;
  }

  /** Without a `repassword` field, registering always reports the mismatch error. */
  lemma AbsentRepasswordRejected(o: Http.Oracles, req: Http.Request)
    requires req.body.repassword.None?
    ensures BodyRegister(o, req).Halt? && BodyRegister(o, req).reply.Json? && BodyRegister(o, req).reply.payload.Invalid?
    ensures BodyError(Text.Trim(req.body.password), MismatchMessage, "password") in BodyRegister(o, req).reply.payload.errors
  {
    var email := EmailChain(o, req.body.email);
    var password := RegisterPasswordChain(req.body.password, req.body.repassword);
    var t := Text.Trim(req.body.password);
    assert RepasswordCheck(t, None) == [BodyError(t, MismatchMessage, "password")];
    assert (email.1 + password.1)[|email.1 + password.1| - 1] == BodyError(t, MismatchMessage, "password");
  }

  /** Logging in passes exactly when the email is an email and the trimmed password has 6 to 12 characters. */
  lemma LoginPassesIff(o: Http.Oracles, req: Http.Request)
    ensures BodyLogin(o, req).Next? <==> o.isEmail(Text.Trim(req.body.email)) && LengthOk(Text.Trim(req.body.password))
    ensures BodyLogin(o, req).Next? ==>
      BodyLogin(o, req).req == req.(body := req.body.(email := o.normalizeEmail(Text.Trim(req.body.email)), password := Text.Trim(req.body.password)))
  {
    var email := EmailChain(o, req.body.email);
    var password := LoginPasswordChain(req.body.password);
    assert email.1 + password.1 == [] <==> email.1 == [] && password.1 == [];
  }

  /** Whatever `repassword` holds, it plays no part in logging in. */
  lemma LoginIgnoresRepassword(o: Http.Oracles, req: Http.Request, other: Option<string>)
    ensures BodyLogin(o, req).Next? == BodyLogin(o, req.(body := req.body.(repassword := other))).Next?
  {
    LoginPassesIff(o, req);
    LoginPassesIff(o, req.(body := req.body.(repassword := other)));
  }

  /**
   * A link passes exactly when it is non-empty after trimming and reachable;
   * the request then goes on with the trimmed link.
   */
  lemma LinkPassesIff(o: Http.Oracles, req: Http.Request)
    ensures BodyLink(o, req).Next? <==> Text.Trim(req.body.longLink) != [] && o.reachable(Text.Trim(req.body.longLink))
    ensures BodyLink(o, req).Next? ==> BodyLink(o, req).req == req.(body := req.body.(longLink := Text.Trim(req.body.longLink)))
  {
  }

  /** An all-blank link is refused, and the non-empty check adds its error first. */
  lemma BlankLinkRejected(o: Http.Oracles, req: Http.Request)
    requires Text.AllSpace(req.body.longLink)
    ensures BodyLink(o, req).Halt?
    ensures BodyLink(o, req).reply.Json? && BodyLink(o, req).reply.payload.Invalid?
    ensures BodyLink(o, req).reply.payload.errors[0] == BodyError([], LinkMessage, "longLink")
  {
    Text.TrimEmptyIff(req.body.longLink);
  }

  /**
   * A parameter passes exactly when it is non-empty after trimming; the
   * request then goes on with the trimmed and escaped parameter.
   */
  lemma ParamPassesIff(req: Http.Request)
    ensures ParamLink(req).Next? <==> !Text.AllSpace(req.param)
    ensures ParamLink(req).Next? ==> ParamLink(req).req == req.(param := Escape(Text.Trim(req.param)))
  {
    Text.TrimEmptyIff(req.param);
  }

  /** The characters `escape` rewrites. */
  predicate IsSpecial(c: char) {
    c == '&' || c == '"' || c == '\'' || c == '<' || c == '>' || c == '/'
  }

  /** The HTML entity `escape` writes for a special character. */
  function Entity(c: char): (r: string)
    requires IsSpecial(c)
    ensures |r| >= 4 && r[0] == '&' && r[|r| - 1] == ';'
  {
    match c
    case '&' => "&amp;"
    case '"' => "&quot;"
    case '\'' => "&#x27;"
    case '<' => "&lt;"
    case '>' => "&gt;"
    case '/' => "&#x2F;"
  }

  function EscapeChar(c: char): string {
    if IsSpecial(c) then Entity(c) else [c]
  }

  /** validator.js's `escape`: each special character becomes its entity, the rest is kept. */
  function Escape(s: string): (r: string)
    ensures |r| >= |s|
    decreases |s|
  {
    if s == [] then [] else EscapeChar(s[0]) + Escape(s[1..])
  }

  /** The entity, if any, that `s` starts with: the character it stands for and its length. */
  function EntityAt(s: string): Option<(char, nat)> {
    if s == [] || s[0] != '&' then None
    else if |s| >= 5 && s[..5] == "&amp;" then Some(('&', 5))
    else if |s| >= 6 && s[..6] == "&quot;" then Some(('"', 6))
    else if |s| >= 6 && s[..6] == "&#x27;" then Some(('\'', 6))
    else if |s| >= 4 && s[..4] == "&lt;" then Some(('<', 4))
    else if |s| >= 4 && s[..4] == "&gt;" then Some(('>', 4))
    else if |s| >= 6 && s[..6] == "&#x2F;" then Some(('/', 6))
    else None
  }

  /** Decoding the six entities back into their characters. */
  function Unescape(s: string): string
    decreases |s|
  {
    if s == [] then []
    else match EntityAt(s)
      case Some(e) => if 0 < e.1 <= |s| then [e.0] + Unescape(s[e.1..]) else [s[0]] + Unescape(s[1..])
      case None => [s[0]] + Unescape(s[1..])
  }

  /** An escaped character is recognised at the head of what follows it. */
  lemma EntityAtEscaped(c: char, rest: string)
    ensures IsSpecial(c) ==> EntityAt(Entity(c) + rest) == Some((c, |Entity(c)|))
    ensures !IsSpecial(c) ==> EntityAt([c] + rest) == None
  {
    if IsSpecial(c) {
      var s := Entity(c) + rest;
      assert s[..|Entity(c)|] == Entity(c);
      assert s[1] == Entity(c)[1];
      if |Entity(c)| == 6 {
        assert s[3] == Entity(c)[3];
        assert s[4] == Entity(c)[4];
      }
    }
  }

  /** Unescaping undoes escaping, so `escape` loses no information. */
  lemma {:induction false} UnescapeEscape(s: string)
    ensures Unescape(Escape(s)) == s
    decreases |s|
  {
    if s != [] {
      var rest := Escape(s[1..]);
      UnescapeEscape(s[1..]);
      EntityAtEscaped(s[0], rest);
      var e := EscapeChar(s[0]);
      assert Escape(s) == e + rest;
      assert (e + rest)[|e|..] == rest;
      if !IsSpecial(s[0]) {
        assert (e + rest)[1..] == rest;
      }
      assert [s[0]] + s[1..] == s;
    }
  }

  /** No markup character other than `&` survives escaping. */
  lemma {:induction false} EscapeRemovesMarkup(s: string)
    ensures forall i :: 0 <= i < |Escape(s)| ==> Escape(s)[i] !in "<>\"'/"
    decreases |s|
  {
    if s != [] {
      EscapeRemovesMarkup(s[1..]);
      var e := EscapeChar(s[0]);
      var rest := Escape(s[1..]);
      assert forall i :: 0 <= i < |e| ==> e[i] !in "<>\"'/";
      assert Escape(s) == e + rest;
      forall i | 0 <= i < |Escape(s)|
        ensures Escape(s)[i] !in "<>\"'/"
      {
        if i >= |e| {
          assert Escape(s)[i] == rest[i - |e|];
        }
      }
    }
  }

  /** Escaping changes a string exactly when it holds a special character. */
  lemma {:induction false} EscapeUnchangedIff(s: string)
    ensures Escape(s) == s <==> forall i :: 0 <= i < |s| ==> !IsSpecial(s[i])
    decreases |s|
  {
    if s != [] {
      EscapeUnchangedIff(s[1..]);
      var rest := Escape(s[1..]);
      if IsSpecial(s[0]) {
        assert |Escape(s)| == |Entity(s[0])| + |rest| > |s|;
      } else {
        assert Escape(s) == [s[0]] + rest;
        assert Escape(s) == s <==> rest == s[1..] by {
          if Escape(s) == s {
            assert rest == Escape(s)[1..];
          }
        }
        assert (forall i :: 0 <= i < |s| ==> !IsSpecial(s[i])) <==> (forall i :: 0 <= i < |s[1..]| ==> !IsSpecial(s[1..][i])) by {
          if forall i :: 0 <= i < |s[1..]| ==> !IsSpecial(s[1..][i]) {
            forall i | 0 <= i < |s| ensures !IsSpecial(s[i]) {
              if i > 0 {
                assert s[i] == s[1..][i - 1];
              }
            }
          }
        }
      }
    }
  }

  /** A decimal id is not altered by escaping. */
  lemma EscapeKeepsDigits(s: string)
    requires Text.AllDigits(s)
    ensures Escape(s) == s
  {
    EscapeUnchangedIff(s);
  }
}
