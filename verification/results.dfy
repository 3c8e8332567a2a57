/** Outcomes of the calls the console makes into the browser and the REST backend.

    Nothing here talks to the network: every request the screens issue is answered by a
    value the caller passes in. The backend answers every endpoint with the envelope
    `{ success, data, response }`; `ok` stands for the HTTP status being 2xx, and is false
    as well when the request could not be sent at all or the body was not JSON.
 */
module Results {

  datatype Option<+T> = None | Some(value: T) {
    function GetOr(default: T): T {
      match this
      case Some(v) => v
      case None => default
    }
  }

  /** One answer of the backend: the HTTP status test, the envelope's `success` flag and
      its `data` member (None when it is null or missing). */
  datatype Envelope<+T> = Envelope(ok: bool, success: bool, data: Option<T>)

  /** JavaScript truthiness of a `string | null` value: set, and not the empty string. */
  predicate Present(o: Option<string>) {
    o.Some? && o.value != ""
  }

  /** The save request of the one-field brand and category forms: a rename of the
      record with that uuid, or a new record. */
  datatype NameRequest = Put(uuid: string, name: string) | Post(name: string)

  /** A transient notification (the Toast component): a green confirmation with its
      fixed text, or an error whose text is not part of the model. */
  datatype Notice = Confirmed(message: string) | Failed
}
