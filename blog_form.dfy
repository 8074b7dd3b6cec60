/** The create-or-edit form controller: three controls (`id`, `username`,
    `text`) with Angular's required/minLength/maxLength validators, a mode
    chosen by whether a post was handed in, and submit/cancel transitions.
    Gateway calls, emitted outputs and toasts are recorded in ghost logs. */
module BlogForm {
  import opened Wrappers
  import opened Text
  import opened BlogModel
  import BlogService

  // ---------------------------------------------------------------------
  // Validators, on a control value that may be null

  /** Angular's notion of an empty input: null or of length zero. */
  predicate IsEmptyInputValue(v: Option<string>) {
    v.None? || |v.value| == 0
  }

  /** `Validators.required`. */
  predicate Required(v: Option<string>) {
    !IsEmptyInputValue(v)
  }

  /** `Validators.minLength(n)`: an empty value is left to `required`;
      the length is JavaScript's, in UTF-16 code units. */
  predicate MinLength(v: Option<string>, n: nat) {
    IsEmptyInputValue(v) || Utf16Length(v.value) >= n
  }

  /** `Validators.maxLength(n)`: only a value with a length can be too long. */
  predicate MaxLength(v: Option<string>, n: nat) {
    v.None? || Utf16Length(v.value) <= n
  }

  /** The three validators of one control together: a present value whose
      UTF-16 length lies in [lo, hi]. */
  function ControlValid(v: Option<string>, lo: nat, hi: nat): (ok: bool)
    requires 1 <= lo
    ensures ok <==> v.Some? && lo <= Utf16Length(v.value) <= hi
  {
    Required(v) && MinLength(v, lo) && MaxLength(v, hi)
  }

  const USERNAME_MIN := 3
  const USERNAME_MAX := 50
  const TEXT_MIN := 5
  const TEXT_MAX := 500

  /** The group is valid when every control is; `id` has no validators. */
  function FormValid(username: Option<string>, text: Option<string>): (ok: bool)
    ensures ok <==> username.Some? && text.Some?
                    && USERNAME_MIN <= Utf16Length(username.value) <= USERNAME_MAX
                    && TEXT_MIN <= Utf16Length(text.value) <= TEXT_MAX
  {
    ControlValid(username, USERNAME_MIN, USERNAME_MAX) && ControlValid(text, TEXT_MIN, TEXT_MAX)
  }

  /** A cleared or empty field always makes the form invalid. */
  lemma EmptyFieldInvalid(username: Option<string>, text: Option<string>)
    requires IsEmptyInputValue(username) || IsEmptyInputValue(text)
    ensures !FormValid(username, text)
  {
  }

  /** Two emoji make a username of length 4, long enough for `minLength(3)`,
      and 300 emoji make a text of length 600, too long for `maxLength(500)`. */
  lemma AstralCharactersCountTwice(emoji300: string)
    requires |emoji300| == 300 && forall i :: 0 <= i < 300 ==> emoji300[i] == '\U{1F600}'
    ensures FormValid(Some("\U{1F600}\U{1F600}"), Some("hello"))
    ensures !FormValid(Some("alice"), Some(emoji300))
  {
    assert "\U{1F600}\U{1F600}"[1..] == "\U{1F600}";
    assert "\U{1F600}"[1..] == "";
    assert Utf16Length(emoji300) == 600 by {
      Utf16LengthAllAstral(emoji300);
    }
  }

  // ---------------------------------------------------------------------
  // Initial values

  /** `blog?.id || null`: a missing id and the falsy id 0 both become null. */
  function InitialId(input: Option<Post>): (id: Option<int>)
    ensures id.Some? <==> input.Some? && input.value.id.Some? && input.value.id.value != 0
    ensures id.Some? ==> id == input.value.id
  {
    match input
    case Some(p) => if p.id == Some(0) then None else p.id
    case None => None
  }

  /** Because of `||`, editing a post whose id is 0 submits a null id, and
      the update then targets `apiUrl/null`, which names no post. */
  lemma EditOfIdZeroTargetsNoPost(apiUrl: string, p: Post, username: string, text: string)
    requires p.id == Some(0)
    ensures BlogService.Update(apiUrl, BlogData(InitialId(Some(p)), username, text)).url == apiUrl + "/null"
    ensures BlogService.Route(apiUrl, BlogService.Update(apiUrl, BlogData(InitialId(Some(p)), username, text)))
            == BlogService.Unroutable
  {
  }

  /** Outputs of the component. `Cancel` is declared but never emitted. */
  datatype FormEvent = FormSubmit | CancelEdit | Cancel

  /** Indices of the controls in the group, in declaration order. */
  const ID := 0
  const USERNAME := 1
  const TEXT := 2
  const CONTROLS := 3

  class BlogFormComponent {
    const apiUrl: string

    /** The `@Input() blog`. */
    var blog: Option<Post>
    var isEditMode: bool

    /** Values of the three controls; `reset()` sets them to null. */
    var id: Option<int>
    var username: Option<string>
    var text: Option<string>

    /** Per-control touched flags, indexed by ID, USERNAME, TEXT. */
    var touched: array<bool>

    ghost var emitted: seq<FormEvent>
    ghost var requests: seq<BlogService.Request>
    ghost var toasts: seq<Toast>

    ghost predicate Valid()
      reads this
    {
      && touched.Length == CONTROLS
      && (isEditMode <==> blog.Some?)
      && id != Some(0)
      && (id.Some? ==> blog.Some? && id == blog.value.id)
      && Cancel !in emitted
    }

    /** The state `initForm` leaves for the input `input`. */
    ghost predicate InitialisedFrom(input: Option<Post>)
      reads this, touched
    {
      && blog == input
      && isEditMode == input.Some?
      && id == InitialId(input)
      && username == Some(if input.Some? then input.value.username else "")
      && text == Some(if input.Some? then input.value.text else "")
      && (forall c :: 0 <= c < touched.Length ==> !touched[c])
    }

    /** The blank create-mode state `resetForm` leaves. */
    ghost predicate IsReset()
      reads this, touched
    {
      && blog.None? && !isEditMode
      && id.None? && username.None? && text.None?
      && (forall c :: 0 <= c < touched.Length ==> !touched[c])
    }

    /** `blogForm.value`, the record submitted. It carries an id only in
        edit mode, and then the id of the post being edited, never 0; in
        create mode its id is null. */
    function Value(): (d: BlogData)
      requires Valid() && username.Some? && text.Some?
      reads this
      ensures d.id != Some(0)
      ensures d.id.Some? ==> isEditMode && blog.Some? && d.id == blog.value.id
      ensures !isEditMode ==> d.id.None?
    {
      BlogData(id, username.value, text.value)
    }

    /** Construction followed by `ngOnInit`, with `input` bound to `blog`. */
    constructor (apiUrl: string, input: Option<Post>)
      ensures Valid() && InitialisedFrom(input) && fresh(touched)
      ensures this.apiUrl == apiUrl
      ensures emitted == [] && requests == [] && toasts == []
    {
      this.apiUrl := apiUrl;
      blog := input;
      isEditMode := input.Some?;
      id := InitialId(input);
      username := Some(if input.Some? then input.value.username else "");
      text := Some(if input.Some? then input.value.text else "");
      touched := new bool[CONTROLS](_ => false);
      emitted, requests, toasts := [], [], [];
    }

    /** A new value of the `blog` input followed by `ngOnChanges`, which
        rebuilds the form group from it. */
    method InitForm(input: Option<Post>)
      requires Valid()
      modifies this
      ensures Valid() && InitialisedFrom(input) && fresh(touched)
      ensures emitted == old(emitted) && requests == old(requests) && toasts == old(toasts)
    {
      blog := input;
      isEditMode := blog.Some?;
      id := InitialId(blog);
      username := Some(if blog.Some? then blog.value.username else "");
      text := Some(if blog.Some? then blog.value.text else "");
      touched := new bool[CONTROLS](_ => false);
    }

    /** What the user types into the two visible controls. */
    method EnterValues(newUsername: string, newText: string)
      requires Valid()
      modifies this
      ensures Valid()
      ensures username == Some(newUsername) && text == Some(newText)
      ensures id == old(id) && blog == old(blog) && isEditMode == old(isEditMode)
      ensures touched == old(touched)
      ensures emitted == old(emitted) && requests == old(requests) && toasts == old(toasts)
    {
      username, text := Some(newUsername), Some(newText);
    }

    /** Marks every control of the group as touched. */
    method MarkFormGroupTouched()
      requires Valid()
      modifies touched
      ensures forall c :: 0 <= c < touched.Length ==> touched[c]
    {
      var c := 0;
      while c < touched.Length
        invariant 0 <= c <= touched.Length
        invariant forall k :: 0 <= k < c ==> touched[k]
      {
        touched[c] := true;
        c := c + 1;
      }
    }

    /** `blogForm.reset()`, then leave edit mode and drop the input post. */
    method ResetForm()
      requires Valid()
      modifies this, touched
      ensures Valid() && IsReset() && touched == old(touched)
      ensures emitted == old(emitted) && requests == old(requests) && toasts == old(toasts)
    {
      id, username, text := None, None, None;
      forall c | 0 <= c < touched.Length {
        touched[c] := false;
      }
      isEditMode := false;
      blog := None;
    }

    /** Submits the form; `outcome` is what the gateway call returns. */
    method SubmitForm(outcome: BlogService.Response<()>)
      requires Valid()
      modifies this, touched
      ensures Valid() && touched == old(touched)
      // an invalid form: no call, every control touched, nothing else changes
      ensures !old(FormValid(username, text)) ==>
        && requests == old(requests) && emitted == old(emitted) && toasts == old(toasts)
        && blog == old(blog) && isEditMode == old(isEditMode)
        && id == old(id) && username == old(username) && text == old(text)
        && (forall c :: 0 <= c < touched.Length ==> touched[c])
      // a valid form: exactly one call, update in edit mode, add otherwise
      ensures old(FormValid(username, text)) ==>
        requests == old(requests) + [if old(isEditMode)
                                     then BlogService.Update(apiUrl, old(Value()))
                                     else BlogService.Add(apiUrl, old(Value()))]
      ensures old(FormValid(username, text)) && outcome.Ok? ==>
        && toasts == old(toasts) + [Toast(SuccessToast,
                                          if old(isEditMode) then "Blog updated successfully"
                                          else "Blog created successfully",
                                          "Success")]
        && emitted == old(emitted) + [FormSubmit]
        && IsReset()
      ensures old(FormValid(username, text)) && outcome.Failed? ==>
        && toasts == old(toasts) + [Toast(ErrorToast,
                                          if old(isEditMode) then "Failed to update blog"
                                          else "Failed to create blog",
                                          "Error")]
        && emitted == old(emitted)
        && blog == old(blog) && isEditMode == old(isEditMode)
        && id == old(id) && username == old(username) && text == old(text)
        && (forall c :: 0 <= c < touched.Length ==> touched[c] == old(touched[c]))
    {
      if !FormValid(username, text) {
        MarkFormGroupTouched();
        return;
      }
      var blogData := Value();
      var request := if isEditMode then BlogService.Update(apiUrl, blogData)
                     else BlogService.Add(apiUrl, blogData);
      requests := requests + [request];
      match BlogService.CatchError(outcome)
      case Success(_) =>
        var message := if isEditMode then "Blog updated successfully" else "Blog created successfully";
        toasts := toasts + [Toast(SuccessToast, message, "Success")];
        emitted := emitted + [FormSubmit];
        ResetForm();
      case Failure(_) =>
        var message := if isEditMode then "Failed to update blog" else "Failed to create blog";
        toasts := toasts + [Toast(ErrorToast, message, "Error")];
    }

    /** Cancel: reset without any gateway call and emit `cancelEdit`. */
    method CancelEditMode()
      requires Valid()
      modifies this, touched
      ensures Valid() && IsReset() && touched == old(touched)
      ensures emitted == old(emitted) + [CancelEdit]
      ensures requests == old(requests) && toasts == old(toasts)
    {
      ResetForm();
      emitted := emitted + [CancelEdit];
    }
  }
}
