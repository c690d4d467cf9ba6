/** An optional value: JavaScript's `undefined`/`null` results and optional record fields. */
module Wrappers {

  datatype Option<+T> = None | Some(value: T) {

    /** The value, or `default` when absent (`x ?? default`). */
    function GetOr(default: T): T {
      match this
      case Some(v) => v
      case None => default
    }
  }
}

/** A toast shown to the user: a title, a description and whether it is styled as an error. */
module Toasts {

  datatype Notice = Notice(title: string, description: string, destructive: bool)

  function Success(title: string, description: string): Notice {
    Notice(title, description, false)
  }

  function Failure(title: string, description: string): Notice {
    Notice(title, description, true)
  }
}
