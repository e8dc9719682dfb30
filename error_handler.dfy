/** The shared error handler: the translation of database errors into messages, and the ordered
    substring tests that turn a message into an HTTP status. */
module ErrorHandler {
  import opened Strings
  import opened Domain
  import PublicationService

  const DuplicateMessage := "El registro ya existe (email duplicado)"
  const RecordMissingMessage := "El registro no fue encontrado"
  const ReferenceMessage := "Error de referencia en la base de datos"
  const ConstraintMessage := "Los datos violan una restricción de la base de datos"
  const DatabaseMessagePrefix := "Error de base de datos: "
  const InvalidDataMessage := "Datos inválidos proporcionados"
  const ConnectionMessage := "Error de conexión a la base de datos"

  /** The message of the error `handlePrismaError` throws. It throws on every path: a known request
      error gets the message of its code, a validation or initialisation error a fixed message, and
      any other error is rethrown unchanged. */
  function HandlePrismaError(e: Error): (m: string)
    ensures e.Thrown? ==> m == e.message
    ensures e.KnownRequest? && e.code !in {"P2002", "P2025", "P2003", "P2014"} ==> DatabaseMessagePrefix <= m
  {
    match e
    case KnownRequest(code, detail) =>
      if code == "P2002" then DuplicateMessage
      else if code == "P2025" then RecordMissingMessage
      else if code == "P2003" then ReferenceMessage
      else if code == "P2014" then ConstraintMessage
      else DatabaseMessagePrefix + detail
    case InvalidQuery => InvalidDataMessage
    case ConnectionFailure => ConnectionMessage
    case Thrown(message) => message
  }

  const NotFoundPatterns: seq<string> := ["no fue encontrado", "no encontrado", "No encontrado"]
  const ConflictPatterns: seq<string> := ["ya existe", "registrado", "duplicado"]
  const ValidationPatterns: seq<string> := ["inválido", "requerido", "no válido", "Datos inválidos"]
  const ForbiddenPatterns: seq<string> := ["inactiva", "Contacta al administrador"]

  predicate MatchesAny(m: string, patterns: seq<string>) {
    exists k :: 0 <= k < |patterns| && Contains(m, patterns[k])
  }

  /** The if-chain of `handleControllerError` with the not-found patterns as a parameter: the first
      group whose pattern occurs in the message decides, and 400 is the fallback. */
  function ClassifyWith(m: string, notFound: seq<string>): (status: int)
    ensures status in {400, 403, 404, 409}
    ensures status == 404 <==> MatchesAny(m, notFound)
    ensures status == 409 <==> !MatchesAny(m, notFound) && MatchesAny(m, ConflictPatterns)
    ensures status == 403 <==>
      && !MatchesAny(m, notFound) && !MatchesAny(m, ConflictPatterns)
      && !MatchesAny(m, ValidationPatterns) && MatchesAny(m, ForbiddenPatterns)
  {
    if MatchesAny(m, notFound) then 404
    else if MatchesAny(m, ConflictPatterns) then 409
    else if MatchesAny(m, ValidationPatterns) then 400
    else if MatchesAny(m, ForbiddenPatterns) then 403
    else 400
  }

  datatype Reply = Reply(status: int, message: string)

  /** `handleControllerError`. Since `handlePrismaError` always throws, the reply always carries the
      handled message and a 4xx status; its 500 reply cannot be reached. */
  function HandleControllerError(e: Error): (r: Reply)
    ensures r.message == HandlePrismaError(e)
    ensures 400 <= r.status < 500
    ensures r.status == 404 <==> MatchesAny(HandlePrismaError(e), NotFoundPatterns)
  {
    var m := HandlePrismaError(e);
    Reply(ClassifyWith(m, NotFoundPatterns), m)
  }

  // ---------------------------------------------------------------- which patterns the fixed messages hold

  lemma RecordMissingMatchesNotFound()
    ensures MatchesAny(RecordMissingMessage, NotFoundPatterns)
  {
    assert "no fue encontrado" <= RecordMissingMessage[12..];
    assert Contains(RecordMissingMessage, NotFoundPatterns[0]);
  }

  lemma DuplicateMissesNotFound()
    ensures !MatchesAny(DuplicateMessage, NotFoundPatterns)
  {
    CharAbsent(DuplicateMessage, "no fue encontrado", 0);
    CharAbsent(DuplicateMessage, "no encontrado", 0);
    CharAbsent(DuplicateMessage, "No encontrado", 0);
  }

  lemma DuplicateMatchesConflict()
    ensures MatchesAny(DuplicateMessage, ConflictPatterns)
  {
    assert "ya existe" <= DuplicateMessage[12..];
    assert Contains(DuplicateMessage, ConflictPatterns[0]);
  }

  lemma InvalidDataMissesNotFound()
    ensures !MatchesAny(InvalidDataMessage, NotFoundPatterns)
  {
    assert 'e' !in InvalidDataMessage;
    CharAbsent(InvalidDataMessage, "no fue encontrado", 5);
    CharAbsent(InvalidDataMessage, "no encontrado", 3);
    CharAbsent(InvalidDataMessage, "No encontrado", 3);
  }

  lemma InvalidDataMissesConflict()
    ensures !MatchesAny(InvalidDataMessage, ConflictPatterns)
  {
    CharAbsent(InvalidDataMessage, "ya existe", 0);
    CharAbsent(InvalidDataMessage, "registrado", 1);
    CharAbsent(InvalidDataMessage, "duplicado", 1);
  }

  lemma InvalidDataMatchesValidation()
    ensures MatchesAny(InvalidDataMessage, ValidationPatterns)
  {
    assert "inválido" <= InvalidDataMessage[6..];
    assert Contains(InvalidDataMessage, ValidationPatterns[0]);
  }

  lemma PublicationNotFoundMissesNotFound()
    ensures !MatchesAny(PublicationService.PublicationNotFoundMessage, NotFoundPatterns)
  {
    CharAbsent(PublicationService.PublicationNotFoundMessage, "no fue encontrado", 3);
    PairAbsent(PublicationService.PublicationNotFoundMessage, "no encontrado", 11);
    CharAbsent(PublicationService.PublicationNotFoundMessage, "No encontrado", 0);
  }

  lemma PublicationNotFoundMissesConflict()
    ensures !MatchesAny(PublicationService.PublicationNotFoundMessage, ConflictPatterns)
  {
    CharAbsent(PublicationService.PublicationNotFoundMessage, "ya existe", 0);
    CharAbsent(PublicationService.PublicationNotFoundMessage, "registrado", 2);
    CharAbsent(PublicationService.PublicationNotFoundMessage, "duplicado", 2);
  }

  lemma PublicationNotFoundMissesValidation()
    ensures !MatchesAny(PublicationService.PublicationNotFoundMessage, ValidationPatterns)
  {
    CharAbsent(PublicationService.PublicationNotFoundMessage, "inválido", 2);
    CharAbsent(PublicationService.PublicationNotFoundMessage, "requerido", 2);
    CharAbsent(PublicationService.PublicationNotFoundMessage, "no válido", 3);
    CharAbsent(PublicationService.PublicationNotFoundMessage, "Datos inválidos", 0);
  }

  lemma PublicationNotFoundMissesForbidden()
    ensures !MatchesAny(PublicationService.PublicationNotFoundMessage, ForbiddenPatterns)
  {
    CharAbsent(PublicationService.PublicationNotFoundMessage, "inactiva", 6);
    CharAbsent(PublicationService.PublicationNotFoundMessage, "Contacta al administrador", 0);
  }

  lemma ClientNotFoundMatchesNotFound()
    ensures MatchesAny(PublicationService.ClientNotFoundMessage, NotFoundPatterns)
  {
    assert "no encontrado" <= PublicationService.ClientNotFoundMessage[8..];
    assert Contains(PublicationService.ClientNotFoundMessage, NotFoundPatterns[1]);
  }

  // ---------------------------------------------------------------- statuses of the fixed messages

  /** A missing record (P2025) is reported as 404. */
  lemma MissingRecordIs404(detail: string)
    ensures HandleControllerError(KnownRequest("P2025", detail)) == Reply(404, RecordMissingMessage)
  {
    RecordMissingMatchesNotFound();
  }

  /** A unique-constraint violation (P2002) is reported as 409. */
  lemma DuplicateIs409(detail: string)
    ensures HandleControllerError(KnownRequest("P2002", detail)) == Reply(409, DuplicateMessage)
  {
    DuplicateMissesNotFound();
    DuplicateMatchesConflict();
  }

  /** A query that fails validation is reported as 400 with the fixed invalid-data message. */
  lemma InvalidQueryIs400()
    ensures HandleControllerError(InvalidQuery) == Reply(400, InvalidDataMessage)
  {
    InvalidDataMissesNotFound();
    InvalidDataMissesConflict();
    InvalidDataMatchesValidation();
  }

  /** A message with "inactiva" and none of the earlier patterns is reported as 403. */
  lemma InactiveIs403(m: string)
    requires Contains(m, "inactiva")
    requires !MatchesAny(m, NotFoundPatterns) && !MatchesAny(m, ConflictPatterns) && !MatchesAny(m, ValidationPatterns)
    ensures HandleControllerError(Thrown(m)) == Reply(403, m)
  {
    assert Contains(m, ForbiddenPatterns[0]);
  }

  /** The masculine "no encontrado" of a client lookup is reported as 404. */
  lemma ClientNotFoundIs404()
    ensures HandleControllerError(Thrown(PublicationService.ClientNotFoundMessage)).status == 404
  {
    ClientNotFoundMatchesNotFound();
  }

  // ---------------------------------------------------------------- the feminine "no encontrada"

  /** As written, "Publicación no encontrada." matches none of the masculine not-found patterns and
      reaches the client as 400. */
  lemma PublicationNotFoundIs400()
    ensures HandleControllerError(Thrown(PublicationService.PublicationNotFoundMessage))
            == Reply(400, PublicationService.PublicationNotFoundMessage)
  {
    PublicationNotFoundMissesNotFound();
    PublicationNotFoundMissesConflict();
    PublicationNotFoundMissesValidation();
    PublicationNotFoundMissesForbidden();
  }

  /** The not-found patterns with the feminine form added. */
  const IntendedNotFoundPatterns: seq<string> := NotFoundPatterns + ["no encontrada"]

  /** The classifier with the feminine not-found form recognised. */
  function HandleControllerErrorIntended(e: Error): (r: Reply)
    ensures r.message == HandlePrismaError(e)
    ensures 400 <= r.status < 500
    ensures Contains(HandlePrismaError(e), "no encontrada") ==> r.status == 404
  {
    var m := HandlePrismaError(e);
    assert Contains(m, "no encontrada") ==> Contains(m, IntendedNotFoundPatterns[3]);
    Reply(ClassifyWith(m, IntendedNotFoundPatterns), m)
  }

  /** With the feminine form recognised, a missing publication is reported as 404. */
  lemma PublicationNotFoundIntendedIs404()
    ensures HandleControllerErrorIntended(Thrown(PublicationService.PublicationNotFoundMessage)).status == 404
  {
    assert "no encontrada" <= PublicationService.PublicationNotFoundMessage[12..];
  }

  /** The corrected classifier differs from the written one only on messages with "no encontrada". */
  lemma IntendedAgreesElsewhere(e: Error)
    requires !Contains(HandlePrismaError(e), "no encontrada")
    ensures HandleControllerErrorIntended(e) == HandleControllerError(e)
  {
    var m := HandlePrismaError(e);
    assert MatchesAny(m, IntendedNotFoundPatterns) <==> MatchesAny(m, NotFoundPatterns) by {
      if MatchesAny(m, IntendedNotFoundPatterns) {
        var k :| 0 <= k < |IntendedNotFoundPatterns| && Contains(m, IntendedNotFoundPatterns[k]);
        assert k < 3;
        assert IntendedNotFoundPatterns[k] == NotFoundPatterns[k];
      }
      if MatchesAny(m, NotFoundPatterns) {
        var k :| 0 <= k < |NotFoundPatterns| && Contains(m, NotFoundPatterns[k]);
        assert IntendedNotFoundPatterns[k] == NotFoundPatterns[k];
      }
    }
  }
}
