/**
 * The "new post" page (app/blog/new/page.tsx): its validation schema and the
 * simulated publication, which adds no post to the blog.
 */
module NewPost {
  import opened Validation
  import JsString
  import Blog

  datatype PostValues = PostValues(title: string, description: string, categories: string, content: string)

  const TitleMessage: string := "Title must be at least 5 characters."
  const DescriptionMessage: string := "Description must be at least 10 characters."
  const CategoriesMessage: string := "Please add at least one category."
  const ContentMessage: string := "Content must be at least 50 characters."

  /** `defaultValues`: every field empty. */
  const DefaultValues: PostValues := PostValues("", "", "", "")

  const BlogRoute: string := "/blog"
  const NewPostRoute: string := "/blog/new"

  /**
   * `formSchema`: the errors zod reports, one per failing field in field order.
   * Categories are one raw string; nothing splits it at commas.
   */
  function Validate(v: PostValues): (errors: seq<FieldError>)
    ensures errors == [] <==> JsString.Length(v.title) >= 5 && JsString.Length(v.description) >= 10 && JsString.Length(v.categories) >= 3 && JsString.Length(v.content) >= 50
    ensures FieldError("title", TitleMessage) in errors <==> JsString.Length(v.title) < 5
    ensures FieldError("description", DescriptionMessage) in errors <==> JsString.Length(v.description) < 10
    ensures FieldError("categories", CategoriesMessage) in errors <==> JsString.Length(v.categories) < 3
    ensures FieldError("content", ContentMessage) in errors <==> JsString.Length(v.content) < 50
    ensures forall e :: e in errors ==>
              e in [FieldError("title", TitleMessage), FieldError("description", DescriptionMessage),
                    FieldError("categories", CategoriesMessage), FieldError("content", ContentMessage)]
    ensures NoRepeats(errors)
  {
    var title := MinLength("title", v.title, 5, TitleMessage);
    var description := MinLength("description", v.description, 10, DescriptionMessage);
    var categories := MinLength("categories", v.categories, 3, CategoriesMessage);
    var content := MinLength("content", v.content, 50, ContentMessage);
    JoinChecks(title, description, categories, content, FieldError("title", TitleMessage),
               FieldError("description", DescriptionMessage), FieldError("categories", CategoriesMessage),
               FieldError("content", ContentMessage));
    title + description + categories + content
  }

  /** The single category "CSS" passes; so does any three characters, even ",,,". */
  lemma CategoriesIsOneRawString(v: PostValues)
    requires v.categories == "CSS" || v.categories == ",,,"
    ensures FieldError("categories", CategoriesMessage) !in Validate(v)
  {
    JsString.LengthOfBmp(v.categories);
  }

  /** The empty form does not validate: every field reports its error. */
  lemma DefaultsRejected()
    ensures |Validate(DefaultValues)| == 4
  {
  }

  /**
   * The page's state: field values, errors shown, `isSubmitting`, the form
   * library's `isSubmitted`, and the current route.
   */
  class NewPostPage {
    var values: PostValues
    var errors: seq<FieldError>
    var isSubmitting: bool
    var isSubmitted: bool
    var route: string

    constructor ()
      ensures values == DefaultValues && errors == [] && !isSubmitting && !isSubmitted && route == NewPostRoute
    {
      values := DefaultValues;
      errors := [];
      isSubmitting := false;
      isSubmitted := false;
      route := NewPostRoute;
    }

    /** The author edits the fields; once a submission was attempted, every change is validated again. */
    method Edit(v: PostValues)
      modifies this
      ensures values == v && isSubmitting == old(isSubmitting) && isSubmitted == old(isSubmitted) && route == old(route)
      ensures isSubmitted ==> errors == Validate(v)
      ensures !isSubmitted ==> errors == old(errors)
    {
      values := v;
      if isSubmitted {
        errors := Validate(v);
      }
    }

    /**
     * A press of "Publish Post": ignored while publishing (the button is
     * disabled); otherwise the values are validated and, when valid,
     * `onSubmit` sets `isSubmitting` without looking at them.
     */
    method Submit() returns (accepted: bool)
      modifies this
      ensures values == old(values) && route == old(route)
      ensures old(isSubmitting) ==> !accepted && isSubmitting && errors == old(errors) && isSubmitted == old(isSubmitted)
      ensures !old(isSubmitting) ==> errors == Validate(values) && accepted == (errors == []) && isSubmitted
      ensures isSubmitting == (old(isSubmitting) || accepted)
    {
      if isSubmitting {
        accepted := false;
      } else {
        isSubmitted := true;
        errors := Validate(values);
        accepted := errors == [];
        if accepted {
          isSubmitting := true;
        }
      }
    }

    /** The timer callback: publishing ends and the router goes to the blog listing. */
    method FinishPublishing()
      modifies this
      ensures !isSubmitting && route == BlogRoute
      ensures values == old(values) && errors == old(errors) && isSubmitted == old(isSubmitted)
    {
      isSubmitting := false;
      route := BlogRoute;
    }

    /** The "Cancel" button goes back to the blog listing. */
    method Cancel()
      modifies this
      ensures route == BlogRoute
      ensures values == old(values) && errors == old(errors) && isSubmitting == old(isSubmitting)
      ensures isSubmitted == old(isSubmitted)
    {
      route := BlogRoute;
    }

    /** The submit button's label; the button is disabled exactly while it reads "Publishing...". */
    function ButtonLabel(): (caption: string)
      reads this
      ensures caption == "Publishing..." <==> isSubmitting
      ensures caption == "Publish Post" <==> !isSubmitting
    {
      if isSubmitting then "Publishing..." else "Publish Post"
    }
  }

  /**
   * Publishing a valid post ends on the blog listing. No post file is
   * written: the page holds no reference to the content directory, so its
   * methods cannot change it (the frame `modifies page` is what proves the
   * directory clause).
   */
  method PublishWritesNothing(page: NewPostPage, dir: Blog.BlogDirectory)
    requires !page.isSubmitting && Validate(page.values) == []
    modifies page
    ensures page.route == BlogRoute && !page.isSubmitting
    ensures dir.present == old(dir.present) && dir.files == old(dir.files)
  {
    var accepted := page.Submit();
    assert accepted && page.ButtonLabel() == "Publishing...";
    page.FinishPublishing();
  }
}
