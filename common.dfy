/** Result and error kinds shared by every part of the template engine.
    Each error constructor stands for one exception the Python program raises. */
module Common {

  datatype Error =
    | UnexpectedBracket(c: char)   // scanner: an opener while tagging, or a closer while not tagging
    | EmptyPlaceholderList         // form writer: `max` over an empty list of fields or stories
    | MalformedFormLine(line: string) // form reader: a segment that does not split on ':' into two parts
    | StoryNotFound(id: string)    // story repository has no text under this identifier
    | CloserBeforeOpener           // substitution: first closer precedes first opener
    | MissingFillable(name: string) // substitution: mapping has no entry for a placeholder name
    | UnbalancedBrackets           // substitution: an opener or a closer left over

  datatype Result<T> = Ok(value: T) | Err(error: Error)

  datatype Option<T> = None | Some(value: T)
}
