/**
 * `createSupervisorSchema` of src/schemas/supervisor.schema.ts: length
 * checks, the RIF pattern `^[JGVE]-\d{8,9}-\d$`, two email fields and the
 * list of ente ids, which defaults to the empty list. zod's `.email()` and
 * `.uuid()` are the parameters `isEmail` and `isUuid`.
 */
module SupervisorSchema {
  import opened Wrappers
  import opened Validation

  /** The form values; `entesIds` may be left out. */
  datatype SupervisorInput = SupervisorInput(
    nombreOrganizacion: string,
    rifOrganizacion: string,
    emailOrganizacion: string,
    nombreUsuario: string,
    apellidoUsuario: string,
    emailUsuario: string,
    password: string,
    entesIds: Option<seq<string>>)

  /** `CreateSupervisorFormData`: the parsed values, with `entesIds` filled in. */
  datatype SupervisorData = SupervisorData(
    nombreOrganizacion: string,
    rifOrganizacion: string,
    emailOrganizacion: string,
    nombreUsuario: string,
    apellidoUsuario: string,
    emailUsuario: string,
    password: string,
    entesIds: seq<string>)

  const RIF_INVALID: string := "Formato de RIF inválido (Ej: J-12345678-9)"

  /** The first character of a RIF: `[JGVE]`. */
  predicate RifLetter(c: char) {
    c == 'J' || c == 'G' || c == 'V' || c == 'E'
  }

  /** `^[JGVE]-\d{8,9}-\d$`, position by position. */
  predicate IsRif(s: string) {
    (|s| == 12 || |s| == 13) &&
    RifLetter(s[0]) && s[1] == '-' && AllDigits(s[2..|s| - 2]) && s[|s| - 2] == '-' && IsDigit(s[|s| - 1])
  }

  /** The pattern read as the regular expression does: letter, `-`, 8 or 9 digits, `-`, check digit. */
  ghost predicate RifPattern(s: string) {
    exists letter: char, digits: string, check: char ::
      s == [letter] + "-" + digits + "-" + [check] &&
      RifLetter(letter) && 8 <= |digits| <= 9 && AllDigits(digits) && IsDigit(check)
  }

  /** The positional test is the regular expression. */
  lemma IsRifIff(s: string)
    ensures IsRif(s) <==> RifPattern(s)
  {
    if IsRif(s) {
      var digits := s[2..|s| - 2];
      assert s == [s[0]] + "-" + digits + "-" + [s[|s| - 1]];
    }
    if RifPattern(s) {
      var letter: char, digits: string, check: char :|
        s == [letter] + "-" + digits + "-" + [check] &&
        RifLetter(letter) && 8 <= |digits| <= 9 && AllDigits(digits) && IsDigit(check);
      assert s[0] == letter && s[1] == '-';
      assert s[2..|s| - 2] == digits;
      assert s[|s| - 2] == '-' && s[|s| - 1] == check;
    }
  }

  /** A RIF is 12 or 13 characters long. */
  lemma RifLength(s: string)
    requires RifPattern(s)
    ensures |s| == 12 || |s| == 13
  {
    IsRifIff(s);
  }

  /** The example in the schema's own message is a RIF. */
  lemma RifExample()
    ensures RifPattern("J-12345678-9")
  {
    var s := "J-12345678-9";
    assert AllDigits(s[2..10]) by {
      assert s[2..10] == "12345678";
    }
    IsRifIff(s);
  }

  const NOMBRE_ORGANIZACION_CHECKS: seq<Check> := Bounded(3, 255,
    "El nombre de la organización es obligatorio",
    "El nombre debe tener al menos 3 caracteres",
    "El nombre no puede exceder 255 caracteres")

  const NOMBRE_USUARIO_CHECKS: seq<Check> := Bounded(2, 100,
    "El nombre del usuario es obligatorio",
    "El nombre debe tener al menos 2 caracteres",
    "El nombre no puede exceder 100 caracteres")

  const APELLIDO_USUARIO_CHECKS: seq<Check> := Bounded(2, 100,
    "El apellido del usuario es obligatorio",
    "El apellido debe tener al menos 2 caracteres",
    "El apellido no puede exceder 100 caracteres")

  const PASSWORD_CHECKS: seq<Check> := [MinLength(1, "La contraseña es obligatoria")]

  /** `.default([])`. */
  function EntesIdsOrDefault(ids: Option<seq<string>>): seq<string> {
    if ids.Some? then ids.value else []
  }

  /** Every issue the string fields report, in declaration order. */
  function SupervisorIssues(input: SupervisorInput, isEmail: string -> bool): seq<string> {
    Issues(input.nombreOrganizacion, NOMBRE_ORGANIZACION_CHECKS) +
    RequiredAnd(input.rifOrganizacion, "El RIF de la organización es obligatorio",
                IsRif(input.rifOrganizacion), RIF_INVALID) +
    RequiredAnd(input.emailOrganizacion, "El email de la organización es obligatorio",
                isEmail(input.emailOrganizacion), "Debe ser un email válido") +
    Issues(input.nombreUsuario, NOMBRE_USUARIO_CHECKS) +
    Issues(input.apellidoUsuario, APELLIDO_USUARIO_CHECKS) +
    RequiredAnd(input.emailUsuario, "El email del usuario es obligatorio",
                isEmail(input.emailUsuario), "Debe ser un email válido") +
    Issues(input.password, PASSWORD_CHECKS)
  }

  /** `createSupervisorSchema.safeParse(input)`: the data when every field passes. */
  function ParseSupervisor(input: SupervisorInput, isEmail: string -> bool, isUuid: string -> bool): (r: Option<SupervisorData>)
    ensures r.Some? ==>
      r.value == SupervisorData(input.nombreOrganizacion, input.rifOrganizacion, input.emailOrganizacion,
                                input.nombreUsuario, input.apellidoUsuario, input.emailUsuario, input.password,
                                r.value.entesIds)
    ensures r.Some? ==> forall i :: 0 <= i < |r.value.entesIds| ==> isUuid(r.value.entesIds[i])
    ensures r.Some? && input.entesIds.None? ==> r.value.entesIds == []
    ensures r.Some? && input.entesIds.Some? ==> r.value.entesIds == input.entesIds.value
    ensures r.None? ==>
      SupervisorIssues(input, isEmail) != [] ||
      exists i :: 0 <= i < |EntesIdsOrDefault(input.entesIds)| && !isUuid(EntesIdsOrDefault(input.entesIds)[i])
  {
    var ids := EntesIdsOrDefault(input.entesIds);
    if SupervisorIssues(input, isEmail) == [] && forall i :: 0 <= i < |ids| ==> isUuid(ids[i]) then
      Some(SupervisorData(input.nombreOrganizacion, input.rifOrganizacion, input.emailOrganizacion,
                          input.nombreUsuario, input.apellidoUsuario, input.emailUsuario, input.password, ids))
    else None
  }

  /** The string fields report no issue exactly when each passes its checks. */
  lemma NoIssuesIff(input: SupervisorInput, isEmail: string -> bool)
    ensures SupervisorIssues(input, isEmail) == [] <==>
      3 <= |input.nombreOrganizacion| <= 255 &&
      RifPattern(input.rifOrganizacion) &&
      input.emailOrganizacion != "" && isEmail(input.emailOrganizacion) &&
      2 <= |input.nombreUsuario| <= 100 &&
      2 <= |input.apellidoUsuario| <= 100 &&
      input.emailUsuario != "" && isEmail(input.emailUsuario) &&
      input.password != ""
  {
    ChecksShapes();
    LengthChecksAccept(input.nombreOrganizacion, NOMBRE_ORGANIZACION_CHECKS, 3, 255);
    LengthChecksAccept(input.nombreUsuario, NOMBRE_USUARIO_CHECKS, 2, 100);
    LengthChecksAccept(input.apellidoUsuario, APELLIDO_USUARIO_CHECKS, 2, 100);
    IsRifIff(input.rifOrganizacion);
    assert Issues(input.password, PASSWORD_CHECKS) == [] <==> input.password != "" by {
      assert Passes(input.password, PASSWORD_CHECKS[0]) <==> |input.password| >= 1;
    }
  }

  /** The three bounded fields chain `.min(1)`, `.min(lo)` and `.max(hi)`. */
  lemma ChecksShapes()
    ensures LengthChain(NOMBRE_ORGANIZACION_CHECKS, 3, 255)
    ensures LengthChain(NOMBRE_USUARIO_CHECKS, 2, 100)
    ensures LengthChain(APELLIDO_USUARIO_CHECKS, 2, 100)
  {
  }

  /** What the schema accepts, field by field; an accepted input keeps its values. */
  lemma SupervisorAcceptedIff(input: SupervisorInput, isEmail: string -> bool, isUuid: string -> bool)
    ensures ParseSupervisor(input, isEmail, isUuid).Some? <==>
      3 <= |input.nombreOrganizacion| <= 255 &&
      RifPattern(input.rifOrganizacion) &&
      input.emailOrganizacion != "" && isEmail(input.emailOrganizacion) &&
      2 <= |input.nombreUsuario| <= 100 &&
      2 <= |input.apellidoUsuario| <= 100 &&
      input.emailUsuario != "" && isEmail(input.emailUsuario) &&
      input.password != "" &&
      (input.entesIds.Some? ==> forall i :: 0 <= i < |input.entesIds.value| ==> isUuid(input.entesIds.value[i]))
    ensures ParseSupervisor(input, isEmail, isUuid).Some? ==>
      ParseSupervisor(input, isEmail, isUuid).value.entesIds == EntesIdsOrDefault(input.entesIds) &&
      ParseSupervisor(input, isEmail, isUuid).value.rifOrganizacion == input.rifOrganizacion
  {
    NoIssuesIff(input, isEmail);
  }

  /** Leaving `entesIds` out is accepted and reads as the empty list. */
  lemma EntesIdsDefault(input: SupervisorInput, isEmail: string -> bool, isUuid: string -> bool)
    requires input.entesIds.None? && SupervisorIssues(input, isEmail) == []
    ensures ParseSupervisor(input, isEmail, isUuid).Some?
    ensures ParseSupervisor(input, isEmail, isUuid).value.entesIds == []
  {
  }
}
