/** Values shared by the backend services and the frontend stores. */
module Common {

  /** A value that may be absent: `undefined`/`null` in the TypeScript source. */
  datatype Option<+T> = None | Some(value: T) {
    function GetOr(default: T): T {
      match this
      case Some(v) => v
      case None => default
    }
  }

  /** The failures the services raise to their callers. */
  datatype Error =
    | NotFound          // NestJS NotFoundException, or Prisma's "record to update not found"
    | StorageFailure    // an exception from the filesystem or the image encoder on a write path

  /** A service call either returns its record or raises one of the errors above. */
  datatype Result<+T> = Ok(value: T) | Err(error: Error)

  /** The three Kanban lanes (TaskStatus in both the backend DTOs and the frontend store). */
  datatype Status = TODO | IN_PROGRESS | DONE

  /** Raw file contents. */
  type Bytes = seq<bv8>
}
