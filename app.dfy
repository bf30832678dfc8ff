/**
 * The shell of App.tsx: the book held by the application and the choice between the upload
 * view and the chat view, which tests `bookContent` for JavaScript truthiness.
 */
module App {
  import opened Wrappers

  datatype View = UploadView | ChatView

  /** JavaScript truthiness of a `string | null`: `null` and `''` are falsy. */
  predicate Truthy(content: Option<string>) {
    content.Some? && content.value != ""
  }

  /** `!bookContent ? <FileUpload/> : <ChatWindow/>`. */
  function ViewFor(bookContent: Option<string>): (view: View)
    ensures view == ChatView <==> bookContent.Some? && |bookContent.value| > 0
    ensures view == UploadView <==> bookContent == None || bookContent == Some("")
  {
    if !Truthy(bookContent) then UploadView else ChatView
  }

  /** `{bookContent && <button>New Book</button>}`: the reset control sits beside the chat view and never beside the upload view. */
  function ShowsResetButton(bookContent: Option<string>): (shown: bool)
    ensures shown <==> ViewFor(bookContent) == ChatView
  {
    Truthy(bookContent)
  }

  class App {
    /** The uploaded book's text; `None` is `null`. */
    var bookContent: Option<string>
    var bookTitle: string

    /** The first render: no book. */
    constructor ()
      ensures bookContent == None && bookTitle == ""
      ensures ViewFor(bookContent) == UploadView
    {
      bookContent := None;
      bookTitle := "";
    }

    /** `handleBookUpload`: holds exactly the uploaded text and title; an empty text keeps the upload view. */
    method HandleBookUpload(content: string, title: string)
      modifies this
      ensures bookContent == Some(content) && bookTitle == title
      ensures ViewFor(bookContent) == if content == "" then UploadView else ChatView
    {
      bookContent := Some(content);
      bookTitle := title;
    }

    /** `handleReset`: drops the book and its title, which brings back the upload view. */
    method HandleReset()
      modifies this
      ensures bookContent == None && bookTitle == ""
      ensures ViewFor(bookContent) == UploadView && !ShowsResetButton(bookContent)
    {
      bookContent := None;
      bookTitle := "";
    }
  }
}
