/**
  Values shared by every controller: optional values, the HTTP reply a
  handler produces, document ids, the outcome of an image upload, and the
  allocation of fresh ids for new documents.
*/
module Common {

  datatype Option<+T> = None | Some(value: T)

  /** A document id (a MongoDB ObjectId in its hexadecimal string form). */
  type Id = string

  /**
    What a handler sends back: a success status with its JSON payload, or
    the status of the error it throws (an `ApiError`'s own status, otherwise
    the 500 of Express's default error handler).
  */
  datatype Reply<+T> = Ok(status: nat, body: T) | Err(status: nat)

  /** A request-body field is present when it is truthy, i.e. a non-empty string. */
  predicate Given(field: string) {
    field != ""
  }

  /**
    The image attached to a request, after the upload helper has run: no
    file, a file the image host accepted (with the URL it returned), or a
    file whose upload failed (the helper returns null).
  */
  datatype FileUpload = NoFile | Uploaded(url: string) | UploadFailed

  /**
    The database assigns every new document an id no other document of its
    collection has. Any string longer than all ids in use will do.
  */
  method NewObjectId(taken: set<Id>) returns (id: Id)
    ensures id !in taken
    ensures id != ""
  {
    var longest: nat := 0;
    var rest := taken;
    while rest != {}
      invariant rest <= taken
      invariant forall t :: t in taken && t !in rest ==> |t| <= longest
      decreases rest
    {
      var t :| t in rest;
      if |t| > longest {
        longest := |t|;
      }
      rest := rest - {t};
    }
    id := seq(longest + 1, _ => 'f');
  }
}
