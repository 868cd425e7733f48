/** Values shared by every route: optional values, what a route handler
    hands back to the framework, and the foreign services it calls. */
module Common {

  datatype Option<+T> = None | Some(value: T)

  /** What an action or loader returns or throws.
      - `Status`: `new Response(text, {status})`, returned or thrown;
      - `ErrorData`: a plain `{error: message}` object;
      - `OkData`: `{ok: true}`;
      - `Redirect`: `redirect(location)`;
      - `NoData`: the handler returns `undefined`;
      - `Thrown`: the ORM threw (a missing row for `delete`/`update`, a
        unique-constraint violation, an invalid `where`), or zod's `.parse`
        rejected its input; the framework answers with an error page. */
  datatype Reply =
    | Status(code: int, text: string)
    | ErrorData(message: string)
    | OkData
    | Redirect(location: string)
    | NoData
    | Thrown

  const BadRequest := Status(400, "Bad request")
  const NotFound := Status(404, "Not found")
  const Unauthorized := Status(401, "Unauthorized")
  /** The response loaders throw for a missing record. */
  const NotFoundPage := Status(404, "Not Found")

  /** A loader either returns its data or throws a response. */
  datatype LoaderResult<+T> = Data(value: T) | Throws(reply: Reply)

  /** Libraries whose code is not part of this model, as uninterpreted
      functions: zod's `email()` and `url()` format checks, bcrypt's `hash`
      (with its cost factor 8 fixed) and `compare`, and `slugify` with
      `{trim: true, lower: true}`. */
  datatype Foreign = Foreign(
    isEmail: string -> bool,
    isUrl: string -> bool,
    hash: string -> string,
    compare: (string, string) -> bool,
    slugify: string -> string)

  function Min(a: int, b: int): int { if a <= b then a else b }

  function Max(a: int, b: int): int { if a >= b then a else b }
}
