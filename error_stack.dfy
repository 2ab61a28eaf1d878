/**
 * The ErrorStack mixin (mosaic/lib/Mixin/ErrorStrack.php) the CLI commands
 * use to collect the messages of the exceptions they catch.
 */
module Mixin {

  class ErrorStack {
    /** The messages, oldest first. */
    var errors: seq<string>

    /** `$errors = []`: a new stack is empty. */
    constructor ()
      ensures errors == [] && !HasErrors()
    {
      errors := [];
    }

    /** hasErrors: `!empty($this->errors)`, an array being empty exactly when it has no elements. */
    function HasErrors(): (b: bool)
      reads this
      ensures b <==> |errors| > 0
    {
      errors != []
    }

    /** addError: the message goes on the end; everything already there stays where it was. */
    method AddError(error: string)
      modifies this
      ensures errors == old(errors) + [error]
      ensures HasErrors() && errors[|errors| - 1] == error && errors[..|old(errors)|] == old(errors)
    {
      errors := errors + [error];
    }

    /** getErrors: the list as it stands, which it leaves alone. */
    method GetErrors() returns (r: seq<string>)
      ensures r == errors
      ensures HasErrors() <==> r != []
    {
      r := errors;
    }

    /** clearErrors: the list is emptied, so hasErrors is false afterwards. */
    method ClearErrors()
      modifies this
      ensures errors == [] && !HasErrors()
    {
      errors := [];
    }
  }
}
