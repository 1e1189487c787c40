/**
 * `createEnteSchema` of src/schemas/ente.schema.ts: five required fields
 * with their checks and six optional text fields that accept anything.
 * zod's `.email()` is the parameter `isEmail`.
 */
module EnteSchema {
  import opened Wrappers
  import opened Validation

  /** The form values; an optional field left out is `None`. */
  datatype EnteInput = EnteInput(
    nombre: string,
    emailContacto: string,
    password: string,
    nombreAdmin: string,
    apellidoAdmin: string,
    rif: Option<string>,
    siglas: Option<string>,
    direccionFiscal: Option<string>,
    estado: Option<string>,
    municipio: Option<string>,
    parroquia: Option<string>)

  const NOMBRE_CHECKS: seq<Check> := Bounded(3, 255,
    "El nombre del Ente es obligatorio",
    "El nombre debe tener al menos 3 caracteres",
    "El nombre no puede exceder 255 caracteres")

  const NOMBRE_ADMIN_CHECKS: seq<Check> := Bounded(2, 100,
    "El nombre del administrador es obligatorio",
    "El nombre debe tener al menos 2 caracteres",
    "El nombre no puede exceder 100 caracteres")

  const APELLIDO_ADMIN_CHECKS: seq<Check> := Bounded(2, 100,
    "El apellido del administrador es obligatorio",
    "El apellido debe tener al menos 2 caracteres",
    "El apellido no puede exceder 100 caracteres")

  const PASSWORD_CHECKS: seq<Check> := [MinLength(1, "La contraseña es obligatoria")]

  /** Every issue the schema reports for the values, field by field in declaration order. */
  function EnteIssues(input: EnteInput, isEmail: string -> bool): seq<string> {
    Issues(input.nombre, NOMBRE_CHECKS) +
    RequiredAnd(input.emailContacto, "El email del Admin Ente es obligatorio",
                isEmail(input.emailContacto), "Debe ser un email válido") +
    Issues(input.password, PASSWORD_CHECKS) +
    Issues(input.nombreAdmin, NOMBRE_ADMIN_CHECKS) +
    Issues(input.apellidoAdmin, APELLIDO_ADMIN_CHECKS)
  }

  /**
   * The schema accepts the values exactly when each required field is in
   * bounds; the optional fields, `rif` among them, are never checked.
   */
  lemma EnteAcceptedIff(input: EnteInput, isEmail: string -> bool)
    ensures EnteIssues(input, isEmail) == [] <==>
      3 <= |input.nombre| <= 255 &&
      input.emailContacto != "" && isEmail(input.emailContacto) &&
      input.password != "" &&
      2 <= |input.nombreAdmin| <= 100 &&
      2 <= |input.apellidoAdmin| <= 100
  {
    BoundedAccepts(input.nombre, 3, 255, "El nombre del Ente es obligatorio",
      "El nombre debe tener al menos 3 caracteres", "El nombre no puede exceder 255 caracteres");
    BoundedAccepts(input.nombreAdmin, 2, 100, "El nombre del administrador es obligatorio",
      "El nombre debe tener al menos 2 caracteres", "El nombre no puede exceder 100 caracteres");
    BoundedAccepts(input.apellidoAdmin, 2, 100, "El apellido del administrador es obligatorio",
      "El apellido debe tener al menos 2 caracteres", "El apellido no puede exceder 100 caracteres");
    assert Issues(input.password, PASSWORD_CHECKS) == [] <==> input.password != "" by {
      assert Passes(input.password, PASSWORD_CHECKS[0]) <==> |input.password| >= 1;
    }
  }

  /** The optional fields never change what the schema reports. */
  lemma OptionalFieldsUnchecked(input: EnteInput, isEmail: string -> bool,
                                rif: Option<string>, siglas: Option<string>, direccionFiscal: Option<string>,
                                estado: Option<string>, municipio: Option<string>, parroquia: Option<string>)
    ensures EnteIssues(input.(rif := rif, siglas := siglas, direccionFiscal := direccionFiscal,
                              estado := estado, municipio := municipio, parroquia := parroquia), isEmail) ==
            EnteIssues(input, isEmail)
  {
  }
}
