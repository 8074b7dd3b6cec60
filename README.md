# Blog management front-end: a Dafny model of its core

The application is an Angular front-end for a collection of short posts
("blogs"), each owned by a username. This project models its three
cooperating pieces:

- **`BlogService`** (`blog_service.dfy`), the data gateway. It builds the
  HTTP request of each of the five remote operations from the configured
  base URL. It also normalises a failed exchange into one message that
  tells client-side from server-side failures. The exchange itself is a
  `Response` value (a success value or an `HttpErrorResponse`) that the
  caller supplies.
- **`BlogForm.BlogFormComponent`** (`blog_form.dfy`), the create-or-edit
  form. It has three controls (`id`, `username`, `text`); `username` and
  `text` are checked by Angular's `required`, `minLength` and `maxLength`
  validators, and `id` has none. It also keeps a per-control touched flag, the edit-mode flag and the `blog` input. Submit and cancel
  are its transitions.
- **`BlogList.BlogListComponent`** (`blog_list.dfy`), the list. It owns the
  working set `blogs`, the search term and `filteredBlogs`, the edit
  selection and the form-visibility flag.

Supporting modules: `Wrappers` (Option, Result), `BlogModel` (the `Post`
record, the three-field form value `BlogData`, toasts) and `Text`. `Text`
holds ASCII `toLowerCase`, `String.prototype.includes`, JavaScript's
`length` in UTF-16 code units (what `minLength`/`maxLength` measure), and the decimal
rendering of a number in a template literal, with a parser that reads the
rendering back.

Every call the components make to the gateway is recorded in a ghost log
`requests`. Every `EventEmitter.emit` is recorded in `emitted`, and every
toast in `toasts`. These logs are how "exactly one `update`", "`formSubmit`
emitted once" and "no gateway call" are stated. The gateway outcome and
the answer of `confirm()` are method parameters. A method that triggers a
reload receives the reload's outcome as a parameter too.

Two reference definitions give the gateway and the sort their meaning:

- `BlogService.Route` reads a request the way the remote resource does. The
  collection is at the base URL and item `n` at `base/n`. GET reads, POST
  creates, PUT replaces, DELETE removes. Each request builder is proved to
  route to the intended operation.
- `BlogList.SortByDateDesc` is a stable newest-first insertion sort. It is
  proved sorted, a permutation, and stable (the posts of each date keep
  their order). `StableSortIsUnique` proves that every stable newest-first
  sort gives the same sequence, so this definition agrees with whatever
  algorithm the JavaScript engine uses.

In these details the model follows the code as written:

- `onFormSubmit` does not hide the form. `isFormVisible` is unchanged.
- `loadBlogs` does not recompute `filteredBlogs`. The filtered view stays as
  it was until `filterBlogs` runs again.
- The body that `add` and `update` send is the form value `{id, username,
  text}`. It carries no `dateCreated`.
- `blogForm.reset()` sets the control values to null, not to `''`. Creating
  the form puts `''` in them.
- Because of `blog?.id || null`, an input post with id 0 gets a null id.
  Editing it then sends the PUT to `base/null`, which names no post
  (`EditOfIdZeroTargetsNoPost`).

User typing and the search box binding are modelled by
`BlogFormComponent.EnterValues` and `BlogListComponent.SetSearchTerm`. Each
only assigns the bound fields. They stand for the templates, which are not
part of this model.

## Model

| member | source | states |
|---|---|---|
| `Text.Utf16Length` | src/app/blog-form/blog-form.component.ts:70-71 | the JavaScript length of a string lies between its character count and twice it, and equals the character count when every character is in the Basic Multilingual Plane |
| `BlogForm.ControlValid` | src/app/blog-form/blog-form.component.ts:66-81 | the validators `Required` (null or `''` fails), `MinLength` (an empty value passes) and `MaxLength` (null passes), lines 69-71 and 77-79: required, minLength(lo) and maxLength(hi) together hold exactly when the value is present and its UTF-16 length is in [lo, hi] |
| `Text.Utf16LengthAppend` | src/app/blog-form/blog-form.component.ts:70-71 | the UTF-16 length of a concatenation is the sum of the parts' lengths, which fixes the length of any mixed string |
| `BlogForm.FormValid` | src/app/blog-form/blog-form.component.ts:66-81 | the group is valid iff username is present with 3 ≤ UTF-16 length ≤ 50 and text is present with 5 ≤ UTF-16 length ≤ 500 |
| `BlogForm.AstralCharactersCountTwice` | src/app/blog-form/blog-form.component.ts:70-79 | two emoji are a long-enough username (length 4), and a text of 300 emoji is too long (length 600) |
| `BlogForm.EmptyFieldInvalid` | src/app/blog-form/blog-form.component.ts:69-77 | a null or empty username or text always makes the form invalid |
| `BlogForm.InitialId` | src/app/blog-form/blog-form.component.ts:65 | the initial id is the input's id when it is present and non-zero, and null otherwise (no input, no id, or id 0) |
| `BlogForm.EditOfIdZeroTargetsNoPost` | src/app/blog-form/blog-form.component.ts:65 | editing a post with id 0 submits an update to `base/null`, which routes to no operation |
| `BlogForm.BlogFormComponent.constructor` | src/app/blog-form/blog-form.component.ts:49-51 | construction plus ngOnInit leaves the state initForm gives for the input, with empty logs |
| `BlogForm.BlogFormComponent.InitForm` | src/app/blog-form/blog-form.component.ts:60-83 | edit mode holds iff an input post is present; username and text are copied from it or `''`; id as InitialId; fresh controls, all untouched; no call, emit or toast |
| `BlogForm.BlogFormComponent.MarkFormGroupTouched` | src/app/blog-form/blog-form.component.ts:121-129 | afterwards every control of the group is touched |
| `BlogForm.BlogFormComponent.ResetForm` | src/app/blog-form/blog-form.component.ts:132-136 | all values null, all controls untouched, edit mode off, `blog` null; logs unchanged |
| `BlogForm.BlogFormComponent.Value` | src/app/blog-form/blog-form.component.ts:91 | the submitted record carries an id only in edit mode, and then the edited post's id, never 0; in create mode its id is null |
| `BlogForm.BlogFormComponent.SubmitForm` | src/app/blog-form/blog-form.component.ts:85-118 | invalid: no call, every control touched, values and mode unchanged; valid: exactly one `update` (edit mode) or `add` (create mode) with the form value; success: the mode's success toast, one `formSubmit`, reset; failure: the mode's error toast, no emit, values, mode and touched flags unchanged |
| `BlogForm.BlogFormComponent.CancelEditMode` | src/app/blog-form/blog-form.component.ts:139-142 | resets the form, emits `cancelEdit` once, no gateway call; the class invariant keeps `cancel` never emitted |
| `BlogList.SortByDateDesc` | src/app/blog-list/blog-list.component.ts:38-40 | the sorted posts are ordered non-increasing by dateCreated and are a permutation of the input |
| `BlogList.SortByDateDescStable` | src/app/blog-list/blog-list.component.ts:38-40 | posts created at the same time keep their input order |
| `BlogList.StableSortIsUnique` | src/app/blog-list/blog-list.component.ts:38-40 | any newest-first arrangement that keeps each date's posts in input order equals SortByDateDesc |
| `Text.Lower` | src/app/blog-list/blog-list.component.ts:48 | same length; each ASCII capital becomes its small letter, every other character is kept, and no ASCII capital remains |
| `Text.Includes` | src/app/blog-list/blog-list.component.ts:48 | the empty needle and a needle at the start are found; a needle longer than the haystack is not |
| `BlogList.MatchesSearch` | src/app/blog-list/blog-list.component.ts:48 | a post matches iff the lower-cased term occurs at some index of its lower-cased username |
| `BlogList.FilterByUsername` | src/app/blog-list/blog-list.component.ts:47-49 | each post occurs in the result as often as in `blogs` if its lower-cased username includes the lower-cased term, else not at all, and the result is a subsequence of `blogs` |
| `BlogList.FilterMembership` | src/app/blog-list/blog-list.component.ts:47-49 | a post is in the filtered view iff it is in `blogs` and the lower-cased term occurs in its lower-cased username |
| `BlogList.FilterByUsernameEmptyTerm` | src/app/blog-list/blog-list.component.ts:46-52 | filtering by the empty term returns `blogs` unchanged, so the `else` branch agrees with the filter |
| `BlogList.SearchExample` | src/app/blog-list/blog-list.component.ts:47-49 | searching "AL" among alice, Albert, bob yields alice then Albert |
| `Text.IncludesIffOccurs` | src/app/blog-list/blog-list.component.ts:48 | `includes` holds iff the needle occurs at some index of the haystack |
| `BlogList.BlogListComponent.constructor` | src/app/blog-list/blog-list.component.ts:18-22 | empty working set and view, no selection, form hidden, empty term |
| `BlogList.BlogListComponent.LoadBlogs` | src/app/blog-list/blog-list.component.ts:33-43 | one `getAll`; on success `blogs` is the stable newest-first sort of the data (a permutation of it); on failure `blogs` is unchanged; nothing else changes |
| `BlogList.BlogListComponent.FilterBlogs` | src/app/blog-list/blog-list.component.ts:45-53 | with a non-empty term the view is FilterByUsername(blogs, term), with an empty term it is `blogs`, and in both cases equals FilterByUsername(blogs, term) |
| `BlogList.BlogListComponent.StartNewBlog` | src/app/blog-list/blog-list.component.ts:54-58 | no selection, form visible, working set unchanged |
| `BlogList.BlogListComponent.StartEditBlog` | src/app/blog-list/blog-list.component.ts:59-64 | the selection is a copy equal field by field to the post, form visible, working set unchanged |
| `BlogList.BlogListComponent.OnFormSubmit` | src/app/blog-list/blog-list.component.ts:66-71 | selection cleared, exactly one reload, visibility unchanged, one "Blog list updated successfully" toast |
| `BlogList.BlogListComponent.OnCancelEdit` | src/app/blog-list/blog-list.component.ts:72-76 | selection cleared, form hidden, working set unchanged |
| `BlogList.BlogListComponent.DeleteBlog` | src/app/blog-list/blog-list.component.ts:78-91 | declined: no call and no change; confirmed and succeeded: one `delete` then exactly one reload and a success toast; confirmed and failed: one `delete`, an error toast, `blogs` unchanged |
| `Text.IntToString` | src/app/services/blog.service.ts:21 | `${n}` is non-empty and has no space; it is all digits exactly when n ≥ 0, and `-` followed by digits when n < 0 |
| `Text.IntToStringRoundTrip` | src/app/services/blog.service.ts:43 | parsing the rendering of an integer gives the integer back |
| `BlogService.IdText` | src/app/services/blog.service.ts:29 | `${blog.id}` reads back as the id: as the number when present, and as no number ("null") when null |
| `BlogService.GetAll` | src/app/services/blog.service.ts:16-18 | the request is a bodiless GET of the base URL, which lists the collection |
| `BlogService.GetById` | src/app/services/blog.service.ts:20-22 | the request targets `base/id` and fetches exactly post `id` |
| `BlogService.Add` | src/app/services/blog.service.ts:24-26 | the request is a POST to the base URL that creates the given record |
| `BlogService.Update` | src/app/services/blog.service.ts:28-30 | the request is a PUT to `base/id` that replaces post `id` with the whole given record; with a null id it routes nowhere |
| `BlogService.Delete` | src/app/services/blog.service.ts:32-34 | the request targets `base/id` and removes exactly post `id` |
| `BlogService.HandleError` | src/app/services/blog.service.ts:36-46 | the message opens with the client-side prefix exactly when the inner error is an `Error`, and with the server-side prefix exactly when it is not |
| `BlogService.HandleErrorDiagnosed` | src/app/services/blog.service.ts:36-44 | the message reads back as client-side with the inner message when the inner error is an Error, and as server-side with the status and message otherwise |
| `BlogService.HandleErrorDistinguishesSides` | src/app/services/blog.service.ts:38-44 | a client-side and a server-side failure never give the same message |
| `BlogService.CatchError` | src/app/services/blog.service.ts:46 | a failure always becomes a failure, never a value, carrying exactly `HandleError`'s message, which reads back as its cause; a value passes through |

## Left out

- The HTTP client, Observables and subscription timing. Each gateway call is a `Response` value applied synchronously, so overlapping or racing requests are not modelled.
- The toast service and `console.error`. Toasts are kept in a ghost log; console output is not modelled.
- The `confirm()` dialog. Its answer is the `confirmed` parameter of `DeleteBlog`.
- Angular's lifecycle and dependency injection. The component-class constructor together with `ngOnInit` is modelled by the Dafny constructor. `ngOnChanges` after a new `blog` input is modelled by `InitForm`. The list's `ngOnInit` is a `LoadBlogs` call.
- The wiring from the form's `formSubmit`/`cancelEdit` outputs to the list's `onFormSubmit`/`onCancelEdit`, and the list's binding of `selectedBlogForEdit` to the form's `blog` input. These are template wiring, not part of the component classes.
- `FormBuilder` internals, pristine/dirty state, and the `usernameControl`/`textControl` getters (template accessors only).
- The recursion of `markFormGroupTouched` into nested groups. The form has no nested group, so that branch is never taken.
- `new Date(...)` parsing and NaN dates. `dateCreated` is an integer number of milliseconds.
- Unicode case mapping. `toLowerCase` is restricted to ASCII letters.
- Object identity. Posts and lists are values, so the `{ ...blog }` copy in `startEditBlog` and the alias `this.filteredBlogs = this.blogs` in `filterBlogs` are plain assignments. No behaviour is lost: nothing mutates a post, and `loadBlogs` assigns a new array before sorting it in place, so the alias never sees the sort.
- The unused `isNewMode` field, and `src/app/app.config.ts` (provider wiring only).
- JavaScript number precision. Ids and status codes are unbounded integers rendered in plain decimal, whereas JavaScript switches to exponent notation from 1e21 and is inexact above 2^53.
- The initial message 'An unknown error occurred.' in `handleError`. Both branches overwrite it, so it is never returned.
- An error from `getAll`. `loadBlogs` has no error handler; RxJS reports such an error asynchronously, which is outside the component state.
- BlogService.Add and BlogService.Update take the three-field form value `BlogData` rather than any `BlogPost`, because the form is their only caller. The post returned by `add` is ignored by the form, so the form's outcome parameter carries no value.
