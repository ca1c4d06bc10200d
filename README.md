# Contact form and project-detail page, modelled in Dafny

This project models the two pieces of logic in the studio website's front end.

- **The contact form** (`src/components/home/ContactUs.tsx`, module `ContactUs`):
  - the yup validation schema, as per-field errors and as one validity predicate;
  - the phone pattern `^$|^[+]?[(]?[0-9]{1,4}[)]?[-\s./0-9]*$`, as a hand-written recogniser that is proved to accept exactly the language of the expression;
  - the interest-tag toggle;
  - the default values;
  - what a submission does to the form for each possible network outcome.

  The form state is the class `ContactForm`. Its methods are typing into a field, toggling a tag, the submit handler, and the library's validate-then-submit wrapper.
- **The project-detail page** (`src/components/portfolio/ProjectDetails.tsx`, module `ProjectDetails`):
  - the three state cells `project`, `loading` and `error`, held by the class `ProjectDetailsView`;
  - the success and failure transitions of `fetchProject`;
  - the prioritised choice of view (Loading, Error, NotFound, Loaded);
  - the rendering of a loaded project: the tags joined by ", ", the problem and solution placeholders, and the images in order with their alt texts.
- **`JsText`** models the JavaScript built-ins these rely on:
  - `Array.prototype.join`;
  - `||` on a string-or-undefined value, where `""` is falsy;
  - the decimal printing of a non-negative integer in a template literal.

  `Options` holds the usual `Option` datatype, which stands for values that may be `undefined` or `null`.

Inputs that come from outside the model:
- yup's e-mail check is foreign code, so every member that needs it takes it as a parameter `isEmail: string -> bool`;
- the contact request is an input `Transport`: no response, or a response with its status and what its body parsed to (nothing, the JSON `null`, or another value);
- the project request is an input `FetchResult`: resolved with a `data` field that holds a project or is missing, or rejected.

Behaviour of the code worth noting:
- Interests are an ordered list. Toggling a selected tag removes every copy of it, and toggling an unselected tag appends it at the end. So toggling twice restores the set of tags but not always the list.
- The submit handler awaits `response.json()` before it looks at the status. A body that does not parse therefore gives the "unable to connect" notice and keeps the values, even after an OK status.
- On an OK status whose body is the JSON `null`, the success notice is shown, then reading `result.data` throws. The "unable to connect" notice follows, and the form is not reset.
- A successful project response whose `data` is missing leads to the "Project not found." view, not to the error view.
- A fetch run after the route's identifier changes does not set `loading` back to true and does not clear `error`. Once a fetch has failed, the page shows the error whatever later fetches return.
- The e-mail input is `type="email"` inside a form without `noValidate`, so the browser's own check can block a submission before the form library validates. `HandleSubmit` models the library's validation only.
- The `"Project not found."` fallback inside the error branch can never be shown, because that branch is only taken when `error` is non-empty (`SelectView`).

## Model

| member | source | states |
|---|---|---|
| ContactUs.PhoneOkIff | src/components/home/ContactUs.tsx:23-25 | the recogniser `PhoneOk` accepts a string exactly when it is in the language of the phone regular expression: empty, or optional `+`, optional `(`, 1–4 digits, optional `)`, then only `-`, white space, `.`, `/` or digits |
| ContactUs.PhoneOkSound | src/components/home/ContactUs.tsx:25 | every accepted non-empty string splits into those five parts in that order |
| ContactUs.PhoneOkComplete | src/components/home/ContactUs.tsx:25 | every well-formed five-part string is accepted |
| ContactUs.PhoneAlphabet | src/components/home/ContactUs.tsx:25 | an accepted phone value contains only `+ ( ) - . /`, JavaScript white space and ASCII digits |
| ContactUs.PhoneRejectsLetters | src/components/home/ContactUs.tsx:23-25 | a phone value with a letter anywhere is rejected |
| ContactUs.PhoneExamples | src/components/home/ContactUs.tsx:23-25 | `""` and `"+1 555-123-4567"` are accepted; `"abc"` is rejected |
| ContactUs.Errors | src/components/home/ContactUs.tsx:18-31 | field by field against the values: name and message are reported exactly when empty; e-mail exactly when empty ("Email is required") or failing the e-mail check ("Invalid email"); phone exactly when the pattern rejects it; interests exactly when none is selected; each with the schema's message; company and referral are never reported |
| ContactUs.NoErrorsIffValid | src/components/home/ContactUs.tsx:18-31 | validation reports nothing exactly when name and message are non-empty, the e-mail is non-empty and passes the e-mail check, the phone matches the pattern and at least one interest is selected |
| ContactUs.OptionalFieldsIrrelevant | src/components/home/ContactUs.tsx:20-21 | changing company or referral never changes validity |
| ContactUs.DefaultsRejected | src/components/home/ContactUs.tsx:47-55 | the default values fail validation, with errors on exactly name, e-mail, interests and message |
| ContactUs.Without | src/components/home/ContactUs.tsx:63-68 | removing a tag leaves no copy of it, keeps the other tags in their relative order (a subsequence), and keeps the count of every other tag |
| ContactUs.Toggled | src/components/home/ContactUs.tsx:60-73 | a selected tag is removed with all its copies and the rest keep their order; an unselected tag is appended at the end; an undefined selection counts as the empty list |
| ContactUs.ToggledUndefined | src/components/home/ContactUs.tsx:61 | toggling on an undefined selection gives the one-tag list |
| ContactUs.ToggleTwice | src/components/home/ContactUs.tsx:60-73 | toggling the same tag twice restores the set of selected tags; it restores the exact list when the tag was absent, and moves the tag, once, to the end when it was present |
| ContactUs.ToggleTwiceReorders | src/components/home/ContactUs.tsx:60-73 | when the tag occurs anywhere before the last position, toggling it twice gives a different list |
| ContactUs.ToggleTwiceExample | src/components/home/ContactUs.tsx:60-73 | toggling "Web" twice on ["Web", "Mobile"] gives ["Mobile", "Web"] |
| ContactUs.WithText | src/components/home/ContactUs.tsx:246 | typing into a registered text input never changes the selected interests |
| ContactUs.ContactForm.constructor | src/components/home/ContactUs.tsx:45-56 | the form starts with the default values |
| ContactUs.ContactForm.Input | src/components/home/ContactUs.tsx:246 | typing into a text input replaces exactly that field's value |
| ContactUs.ContactForm.ToggleInterest | src/components/home/ContactUs.tsx:60-73 | a tag click writes the toggled list back and flips the tag's membership; no other field changes |
| ContactUs.NoticesFor | src/components/home/ContactUs.tsx:101-127 | the notices shown, in order: one notice, and two only for an OK `null` body; success is the last notice exactly when the status is OK and the body is a non-null value; success appears whenever an OK body parses (also `null`); failure exactly for a parsed non-OK reply; the connection notice exactly for no response, an unparseable body, or an OK `null` body |
| ContactUs.ContactForm.OnSubmit | src/components/home/ContactUs.tsx:101-127 | shows `NoticesFor` the outcome; the values become the defaults exactly when the status is OK and the body is a non-null value, and are unchanged otherwise |
| ContactUs.ContactForm.HandleSubmit | src/components/home/ContactUs.tsx:238 | invalid values are not submitted: the field errors are returned and the values stay; valid values go to the submit handler, which shows `NoticesFor` the outcome and resets only on an OK non-null body |
| ProjectDetails.AfterFetch | src/components/portfolio/ProjectDetails.tsx:27-39 | after a fetch `loading` is false; a resolved fetch sets the project to the payload's `data` and keeps the error; a rejected fetch sets the fixed failure message and keeps the project |
| ProjectDetails.ProjectDetailsView.constructor | src/components/portfolio/ProjectDetails.tsx:22-24 | the cells start with no project, `loading` true and an empty error |
| ProjectDetails.ProjectDetailsView.FetchProject | src/components/portfolio/ProjectDetails.tsx:27-39 | the try, catch and finally steps leave the cells as `AfterFetch` of the old cells |
| ProjectDetails.SelectView | src/components/portfolio/ProjectDetails.tsx:44-51 | the view is Loading exactly when loading; else Error exactly when the error is non-empty, showing that error itself (the fallback text is unreachable); else NotFound exactly when there is no project; else Loaded, showing `Render` of the project |
| ProjectDetails.InitialView | src/components/portfolio/ProjectDetails.tsx:22-24 | the initial cells show the Loading view |
| ProjectDetails.FirstFetch | src/components/portfolio/ProjectDetails.tsx:26-51 | from the initial state a resolved project is shown Loaded, a resolved missing `data` shows NotFound, and a rejection shows the failure message |
| ProjectDetails.FetchesOutcome | src/components/portfolio/ProjectDetails.tsx:26-42 | over any series of re-fetches: `loading` stays false once a fetch has run, the error is the failure message exactly when some fetch was rejected (it is never cleared), and the project is the one from the last resolved fetch |
| ProjectDetails.FailureIsSticky | src/components/portfolio/ProjectDetails.tsx:26-51 | once any fetch has failed, the page shows the failure message and never the loaded view, whatever later fetches return |
| ProjectDetails.ProblemText | src/components/portfolio/ProjectDetails.tsx:68 | the problem text is the field when present and non-empty, else "No problem specified."; it is never blank |
| ProjectDetails.SolutionText | src/components/portfolio/ProjectDetails.tsx:72 | the solution text is the field when present and non-empty, else "No solution specified."; it is never blank |
| ProjectDetails.FiguresFrom | src/components/portfolio/ProjectDetails.tsx:76-80 | one figure per image, in order, each with the alt text of its position |
| ProjectDetails.Render | src/components/portfolio/ProjectDetails.tsx:53-88 | the loaded page shows the project's own title, category and link; the tags line is the tags joined by ", " (empty for no tags); problem and solution are `ProblemText` and `SolutionText`; the i-th figure is the i-th image with alt text `title - Image (i+1)` |
| ProjectDetails.TagsInOrder | src/components/portfolio/ProjectDetails.tsx:62 | each tag appears verbatim at its offset in the tags line, the next tag follows it after ", ", and the line ends right after the last tag |
| ProjectDetails.AltTextsDistinct | src/components/portfolio/ProjectDetails.tsx:80 | different images get different alt texts |
| JsText.OrElse | src/components/portfolio/ProjectDetails.tsx:48 | `v \|\| fallback` is `v` when it is defined and non-empty, else the fallback; it is non-empty when the fallback is |
| JsText.JoinKeepsOrder | src/components/portfolio/ProjectDetails.tsx:62 | in a join with a non-empty separator, earlier parts appear verbatim before later ones, with a separator just before each later part |
| JsText.DecimalRoundTrip | src/components/portfolio/ProjectDetails.tsx:80 | the decimal text of a position reads back as the same number, so different positions print differently |

## Left out

- Layout, styling, animation, the `AnimatedButton` and the image component's sizing props are presentation only.
- `fetch`, `axios`, the endpoint URLs, `JSON.stringify`, `alert` and `console` are I/O. A response is an input value, and the three alerts are the `Notice` values. A parsed body is told apart only as `null` or not, which is all the handler depends on.
- The internals of yup's `.email()` check are foreign library code. The check is the parameter `isEmail`. The empty e-mail is reported as "Email is required", because yup's e-mail test skips empty strings.
- The form library's error display and its clearing of errors as fields change are foreign library behaviour. `HandleSubmit` returns the errors of one validation run.
- The social-link `window.open` handlers, `useParams` routing and `useEffect` scheduling are framework plumbing. A re-fetch is modelled as one more `FetchProject` call on the same state, as `AfterFetches` does.
- The commented-out mail-client submission path is dead code.
- The browser's built-in constraint check on the `type="email"` input is browser behaviour and is not modelled; a submission it blocks never reaches `HandleSubmit`.
- Races between an in-flight fetch and unmounting or re-rendering are concurrency.
- ContactUs.Toggled: an undefined selection is modelled on the pure function only. The form's state is always a list, because the defaults give `[]` and every write stores a list. For the same reason, yup skipping the `min(1)` rule on an undefined array is not modelled.
- ContactUs.PhoneRejectsLetters: "letter" means an ASCII letter. Any other character outside the accepted alphabet is rejected too, by `PhoneAlphabet`.
