# Portfolio site: contact endpoint, contact form, typewriter and project filter

A Dafny model of the parts of a personal portfolio site that have logic. Everything else in the site is layout, styling and animation.

- **Contact endpoint** (`contact_endpoint.dfy`, `email_pattern.dfy`). The Express handler of `POST /api/contact` is a pure function `HandleContact`. It takes the parsed body, which may be absent, holding the four fields `name`, `email`, `subject` and `message`. It returns `(status, success, message)`.
  - An absent body makes the destructuring throw inside the `try`, which gives the generic 500.
  - It checks presence first. A field is present when it is truthy in JavaScript: given and not "" (no trimming).
  - It then checks the email against `^[^\s@]+@[^\s@]+\.[^\s@]+$`.
  - When both checks pass, it acknowledges with status 200.
  - The regular expression is given twice: as a language (`MatchesPattern`) and as an executable recogniser (`IsValidEmail`, a seven-state automaton). `RecogniserMatchesPattern` proves the two agree on every string. `PatternShape` restates the pattern in plain words: no whitespace, exactly one '@', something before it, and after it a '.' with a character on each side.
- **Contact form controller** (`contact_form.dfy`). The class `Controller` holds the draft `formData`, the `isSubmitting` flag and the last alert text.
  - The submit handler awaits a collaborator. It is split at the await into `BeginSubmit` and `FinishSubmit`, so input events can come in between. `HandleSubmit` runs both steps with the collaborator passed in as a function.
  - The collaborator can resolve with success, resolve with failure, or throw. The shipped WordPress stub (`WordPressSubmit`) always resolves with success.
- **Typewriter headline** (`typewriter.dfy`). The class `Hero` holds `currentText`, `currentIndex` and `isDeleting`, plus a flag for a pending pause timer.
  - A firing of the typing timer is `Tick`. A firing of the pause timer is `PauseElapsed`.
  - The class invariant: the index stays in `[0, 5)`, the text is a prefix of the current phrase, and a pending pause was scheduled on the full phrase.
- **Project filter** (`projects.dfy`). `FilterProjects` returns the whole list for "All". For any other filter it returns exactly the projects of that category, in their original order. The class `Gallery` keeps `activeFilter` inside the category list.

The two contact components are independent in the code: the form never calls the endpoint. They are modelled independently too.

## Model

| member | source | states |
|---|---|---|
| EmailPattern.IsWhitespace | server.js:27 | JavaScript's `\s`: no visible ASCII character is whitespace; space, tab, line feed, carriage return, U+00A0 and U+FEFF are |
| EmailPattern.IsValidEmail | server.js:27-28 | `emailRegex.test(email)` holds exactly when the email is in the language of the pattern |
| EmailPattern.RecogniserMatchesPattern | server.js:27-28 | the seven-state automaton ends accepting exactly when the input is in the language of `^[^\s@]+@[^\s@]+\.[^\s@]+$`, read as three non-empty runs of `[^\s@]` joined by '@' and '.' |
| EmailPattern.RunDecidesLanguage | server.js:27 | from every recogniser state, the run ends accepting exactly when the rest of the input is in that state's language |
| EmailPattern.StepPreservesLanguage | server.js:27 | one character moves the recogniser between the languages of its states, in both directions |
| EmailPattern.StartLanguageIsPattern | server.js:27 | the language of the start state is the regular expression's language |
| EmailPattern.PatternShape | server.js:27 | the pattern matches exactly when the string has no whitespace and exactly one '@' with something before it, and after the '@' there is a '.' with a character on each side |
| EmailPattern.AcceptedExamples | server.js:27 | "ada@example.com" and "a@b..c" match |
| EmailPattern.RejectedExamples | server.js:27 | "not-an-email", "a@b", "a@b.c ", "a@.b" and "a@b." do not match |
| ContactEndpoint.Truthy | server.js:19 | a field counts as present unless it is missing or "" |
| ContactEndpoint.AllPresent | server.js:19 | the presence check holds exactly when each of the four fields is present, and then the email is a non-empty string |
| ContactEndpoint.HandleContact | server.js:14-55 | `success` holds exactly when the status is 200; an absent body gives 500 with the generic message; a missing or "" field gives 400 "All fields are required"; otherwise an email outside the pattern gives 400 "Invalid email format"; otherwise 200 with the thank-you message, or 500 with the generic message when the processing step fails |
| ContactEndpoint.ResponsesAreKnown | server.js:19-54 | every response is one of the four the handler sends |
| ContactEndpoint.PresenceBeforeFormat | server.js:18-33 | a missing field together with a malformed email still gives "All fields are required" |
| ContactEndpoint.PresenceWithoutTrimming | server.js:19 | "0" and " " count as present; "" and a missing field do not |
| ContactEndpoint.AcknowledgesWellFormedPayload | server.js:44-47 | the payload Ada / ada@example.com / Hi / Hello there gets 200, `success: true` and the thank-you message |
| ContactEndpoint.RefusesMalformedEmail | server.js:26-33 | with all fields present, each malformed example email gets 400 "Invalid email format" |
| ContactForm.Draft.With | src/components/Contact.tsx:295-298 | the updated draft has the new value in the named field and the old values in the other three |
| ContactForm.Settle | src/components/Contact.tsx:309-318 | a successful result empties all four fields and surfaces the result's message; a failed result or a throw keeps the draft and surfaces "Failed to send message. Please try again." |
| ContactForm.WordPressSubmit | src/services/wordpressApi.ts:23-37 | the shipped collaborator resolves with success and the thank-you message |
| ContactForm.ShippedCollaboratorClears | src/services/wordpressApi.ts:23-37 | with the shipped collaborator, every submit clears the draft and surfaces its thank-you message |
| ContactForm.SubmitButton | src/components/Contact.tsx:463-471 | the button is disabled exactly while submitting; it reads "Sending..." exactly while submitting and "Send Message" exactly otherwise |
| ContactForm.Controller.constructor | src/components/Contact.tsx:250-256 | the draft starts as four empty strings, not submitting, with no alert shown |
| ContactForm.Controller.HandleInputChange | src/components/Contact.tsx:292-299 | the named field takes the value; the other three fields, the flag and the alert are unchanged |
| ContactForm.Controller.BeginSubmit | src/components/Contact.tsx:301-307 | the flag is raised and the payload handed over is the draft at that moment; the draft is unchanged |
| ContactForm.Controller.FinishSubmit | src/components/Contact.tsx:309-321 | the draft and the alert become what `Settle` gives for the current draft and the outcome; the flag is cleared on every outcome |
| ContactForm.Controller.HandleSubmit | src/components/Contact.tsx:301-322 | the collaborator receives the draft; on success the draft becomes empty, otherwise it is unchanged; the flag ends cleared |
| ContactForm.Controller.RenderedButton | src/components/Contact.tsx:465 | the rendered button is disabled exactly while submitting |
| Typewriter.Substring | src/components/Hero.tsx:186-190 | `substring(0, end)` is the prefix of the phrase whose length is `end` clamped into `[0, length]` |
| Typewriter.Hero.constructor | src/components/Hero.tsx:164-177 | the text starts empty, at phrase 0, typing, no pause pending; the invariant holds |
| Typewriter.Hero.Tick | src/components/Hero.tsx:178-200 | keeps the invariant (index in `[0, 5)`, text a prefix of its phrase); typing adds exactly one character and stays on the full phrase; deleting removes exactly one character and "" stays ""; the index advances by one mod 5 exactly when deleting observed "", and stays the same otherwise; deleting stops exactly then; a pause is scheduled exactly when typing observed the full phrase; it is not called while a pause is pending, as no typing timer is armed then |
| Typewriter.Hero.PauseElapsed | src/components/Hero.tsx:192-193 | deleting starts only from a pending pause, so only from the full phrase; text and index are unchanged |
| Projects.WithCategory | src/components/Projects.tsx:271 | the result is a subsequence of the list (order kept), every element has the category, and its length is the number of projects of that category |
| Projects.WithCategoryKeepsMatches | src/components/Projects.tsx:271 | every project of the category is in the result |
| Projects.FilterProjects | src/components/Projects.tsx:268-271 | "All" returns the list unchanged; any other filter returns the category's projects; either way a subsequence no longer than the list |
| Projects.CategoriesPartition | src/components/Projects.tsx:266-271 | when each project's category occurs exactly once in a category list, the category counts add up to the number of projects |
| Projects.CategoriesCoverProjects | src/components/Projects.tsx:197-266 | every project's category is one of the buttons other than "All" |
| Projects.FiltersPartitionGallery | src/components/Projects.tsx:197-271 | the five category filters split the six projects among themselves |
| Projects.ProjectIdsDistinct | src/components/Projects.tsx:197-264 | project ids 1 to 6, the render keys, are distinct |
| Projects.BackendIsEmpty | src/components/Projects.tsx:197-271 | the "Backend" filter shows no project |
| Projects.Gallery.constructor | src/components/Projects.tsx:195 | the active filter starts as "All" |
| Projects.Gallery.SelectFilter | src/components/Projects.tsx:285-289 | a click sets the active filter to that button's category, which keeps it in the category list |
| Projects.Gallery.Shown | src/components/Projects.tsx:268-271 | the shown projects are a subsequence of the six, and all of the active category unless it is "All" |

## Left out

- Express plumbing in server.js is not modelled: middleware, static files, the production catch-all, `listen` and the `/api/health` timestamp. None of it has logic beyond I/O.
- The `console.log` of a submission and its timestamp (server.js:36-42) are not modelled. The only failure possible after validation is in this step, so it is the `logFails` input of `HandleContact`, which gives the 500 response.
- Body fields that are JSON values other than strings (numbers, booleans, objects) are not modelled, and neither is `test`'s conversion of them to strings. Fields are optional strings.
- `IsValidEmail` reads characters as Unicode scalar values. JavaScript reads UTF-16 code units. This makes no difference to the pattern: no `\s` character is outside the BMP, and a surrogate pair is two atoms where the model sees one, so every run stays non-empty either way.
- The client-side collaborator is a function parameter. `WordPressSubmit` models `submitContactForm`; its console log is left out. The configured but unused axios instance is left out.
- `alert` and `console.error` in the contact form are left out. The alert text is kept in `notice`.
- The browser's `required` and `type="email"` checks are not modelled. Neither is the static list of contact and social links.
- There is no re-entrancy guard beyond the disabled button. `BeginSubmit` accepts a second call while one is in flight, as the code does.
- Timer delays (100, 50 and 2000 ms) and effect cleanup in the Hero component are not modelled; timer firings are method calls.
- Typewriter.Hero.PauseElapsed: it requires a pending pause, because the pause timer fires only after a tick schedules it. One flag stands for the pending pause timers, and under React's re-rendering at most one is pending at a time.
- Project descriptions, emoji, technology tags and links are left out of `Project`. Only the id, title and category are used by the filter logic.
- scripts/deploy.js (file copying and templates), About, Skills, Footer and App are not part of this model. They have no logic beyond I/O, layout or animation.
- After the '@', the code's pattern needs a '.' with at least one character on each side, so "a@.b" and "a@b." are refused. A domain with a '.' anywhere in it is not enough.
