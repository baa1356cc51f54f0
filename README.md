# DevOrbit: Hyperlocal Swarm screen and navigation frame, in Dafny

This project models three parts of the DevOrbit web front end:

- **The Hyperlocal Swarm screen** (`app/hyperlocal/page.tsx`). Its state is a swarm
  session: an activation flag, a 30-minute countdown and the developer whose detail
  card is open. The model also covers the one-second countdown update, the `M:SS`
  label (`formatTime`) and the "common skills" summary (`getCommonSkills`).
- **The navigation bar** (`components/CosmicNav.tsx`). It has five fixed sections,
  highlights a section when the path starts with that section's `href`, links the
  avatar to a profile page or to `/create-id`, and keeps an open/closed flag for the
  mobile menu.
- **The page frame** (`components/LayoutWrapper.tsx`). It hides the bar on exactly
  `/` and `/create-id`, and adds the `pt-20` padding class only when the bar is shown.

Modules, in dependency order:

- `Base`: `Option` and the `startsWith` test.
- `Decimal`: integer-to-string conversion, `padStart` and the reading of a digit
  string back to a number.
- `Developers`: the developer record and the three sample developers.
- `TimeFormat`: `formatTime` and the parser that inverts it.
- `Swarm`:
  - the session as a value;
  - its events;
  - a transition function `Step` and its iteration `Run`;
  - the class `SwarmSession`, whose fields are updated in place by one method per
    handler, each proved to perform exactly the corresponding `Step`.
- `CommonSkills`: the flatten–count–sort–slice pipeline. It has a loop method for
  the counting `reduce` and a stable insertion sort for `Array.prototype.sort`.
  Correctness is stated through `IsTopSkills`, an independent description of the
  result, which is proved to hold and to determine the result uniquely.
- `CosmicNav`: the section table, the active-section rule, the profile link and the
  `MobileMenu` class. A section's `label` field is called `caption` here, because
  `label` is a reserved word in Dafny.
- `LayoutWrapper`: the hide-nav predicate and what the frame renders.

The route and the signed-in user come from the framework's `usePathname` hook and
the application store. Both are parameters here.

## Model

| member | source | states |
|---|---|---|
| Base.StartsWith | components/CosmicNav.tsx:87 | `String.prototype.startsWith`, as used at lines 87, 112 and 190: the prefix is an initial segment of the string. |
| Developers.MockDevelopers | app/hyperlocal/page.tsx:36-67 | The three sample developers, with their ids, names, skills and the other fields of the record. |
| Decimal.NatToString | app/hyperlocal/page.tsx:114 | Interpolating a whole number gives a non-empty run of digits. |
| Decimal.NatToStringShape | app/hyperlocal/page.tsx:114 | The numeral has no padding: it is one character long exactly for numbers below 10, and starts with `0` only for zero. |
| Decimal.NatToStringRoundTrip | app/hyperlocal/page.tsx:114 | Reading the numeral of `n` back gives `n`. |
| Decimal.PadStart | app/hyperlocal/page.tsx:114 | `padStart(width, fill)` gives the longer of the input and `width`. The input is a suffix of the result, and everything before it is the fill character. |
| TimeFormat.FormatTime | app/hyperlocal/page.tsx:111-115 | `formatTime`: the label of `Math.floor(seconds / 60)` minutes and `seconds % 60` seconds. Its properties are the lemmas below. |
| TimeFormat.Label | app/hyperlocal/page.tsx:114 | The template `${mins}:${secs.toString().padStart(2, '0')}`. |
| TimeFormat.FormatTimeShape | app/hyperlocal/page.tsx:111-115 | The label is at least four characters: digits, a colon, then exactly two digits. It starts with `0` exactly when less than a minute is left. |
| TimeFormat.SecondsField | app/hyperlocal/page.tsx:113-114 | For a seconds value below 60, the padded field is two digits and reads back as that value. |
| TimeFormat.FormatTimeFields | app/hyperlocal/page.tsx:112-114 | The part before the colon reads back as the whole minutes (`Math.floor(seconds / 60)`). The two digits after it read back as the remainder, which is below 60. |
| TimeFormat.LabelRoundTrip | app/hyperlocal/page.tsx:114 | A label of `mins` minutes and `secs < 60` seconds parses back as `mins * 60 + secs`. |
| TimeFormat.FormatTimeRoundTrip | app/hyperlocal/page.tsx:111-115 | Parsing the label of any whole number of seconds gives back exactly that number. |
| TimeFormat.FormatTimeInjective | app/hyperlocal/page.tsx:111-115 | Different second counts get different labels. |
| TimeFormat.FormatTimeMinuteExamples | app/hyperlocal/page.tsx:111-115 | 0 → `0:00`, 59 → `0:59`, 60 → `1:00`. |
| TimeFormat.FormatTimeSessionExamples | app/hyperlocal/page.tsx:111-115 | 65 → `1:05`, 1800 (a full session) → `30:00`, 1829 → `30:29`. |
| Developers.MockIdsUnique | app/hyperlocal/page.tsx:36-67 | The three sample developers have distinct ids. |
| Swarm.SessionLength | app/hyperlocal/page.tsx:83 | The session length `30 * 60` seconds. |
| Swarm.InitialSession | app/hyperlocal/page.tsx:81-83 | The mount state: inactive, no developer selected, the full session length left. |
| Swarm.ModalOpen | app/hyperlocal/page.tsx:429 | The detail modal is on screen: only the active view draws it (the inactive view returns early at line 132), and only while a developer is selected. |
| Swarm.Step | app/hyperlocal/page.tsx:103-445 | One event: Activate (line 178) and Deactivate (line 213) set the flag, a tick applies the updater of line 106 while active, Select (line 353) and Dismiss (lines 435, 445) set the selection. Only a tick while active changes the time left, only the two buttons change the flag, only the card and the modal change the selection. |
| Swarm.Run | app/hyperlocal/page.tsx:103-109 | The handlers applied in order. From a non-negative time left, the time left never rises and never goes below zero. |
| Swarm.TickUpdate | app/hyperlocal/page.tsx:106 | The interval's updater never gives a negative value. It lowers a positive value by one and sends zero or below to zero. |
| Swarm.InitialSessionValid | app/hyperlocal/page.tsx:81-83 | On mount the swarm is inactive, 1800 seconds are left and no developer is selected. |
| Swarm.StepPreservesValid | app/hyperlocal/page.tsx:103-109 | No event takes the time left outside 0..1800. |
| Swarm.ReachableSessionsValid | app/hyperlocal/page.tsx:103-109 | No sequence of events takes the time left outside 0..1800. |
| Swarm.TicksCountDown | app/hyperlocal/page.tsx:103-109 | While active, `k` ticks take `k` seconds off, clamped at zero. They change neither the flag nor the selection. |
| Swarm.CountdownReachesZero | app/hyperlocal/page.tsx:104-107 | From `n` seconds, the countdown shows zero after exactly `n` ticks and at every later tick. It is positive before that. The swarm is still active afterwards: reaching zero does not deactivate it. |
| Swarm.TicksWhileInactive | app/hyperlocal/page.tsx:104 | While inactive, any number of ticks changes nothing: no interval is running. |
| Swarm.ActivationKeepsTime | app/hyperlocal/page.tsx:178-213 | Activating sets the flag to true and deactivating sets it to false; neither changes the time left or the selection. Activate-then-deactivate leaves the time left as it was. |
| Swarm.DoubleActivation | app/hyperlocal/page.tsx:103-109 | Activating twice is the same as activating once. Five ticks afterwards take exactly five seconds off. |
| Swarm.SelectionEvents | app/hyperlocal/page.tsx:353-445 | Selecting sets exactly the clicked record, and dismissing clears the selection; neither changes the flag or the time left. Dismissing is idempotent and undoes a selection. After a selection the modal is open exactly when the swarm is active; after a dismissal it is closed. |
| Swarm.SwarmSession.constructor | app/hyperlocal/page.tsx:81-83 | A new session is in the mount state and satisfies the 0..1800 invariant. |
| Swarm.SwarmSession.Activate | app/hyperlocal/page.tsx:178 | Sets only `swarmActive` to true and keeps the invariant. |
| Swarm.SwarmSession.Deactivate | app/hyperlocal/page.tsx:213 | Sets only `swarmActive` to false and keeps the invariant. |
| Swarm.SwarmSession.Tick | app/hyperlocal/page.tsx:103-109 | While active, applies the updater to `timeLeft`; otherwise changes nothing. Keeps the invariant. |
| Swarm.SwarmSession.Select | app/hyperlocal/page.tsx:353 | Sets only `selectedDev`, to the clicked record. |
| Swarm.SwarmSession.Dismiss | app/hyperlocal/page.tsx:435-445 | Sets only `selectedDev`, to none. |
| Swarm.SwarmSession.Remaining | app/hyperlocal/page.tsx:215 | The time shown in the deactivate button's caption `Deactivate (M:SS)` is the `M:SS` label of the time left, and it parses back to exactly that time. |
| CommonSkills.AllSkills | app/hyperlocal/page.tsx:118 | `flatMap` over the developers' skill lists, in order; see `AllSkillsMembers`. |
| CommonSkills.AllSkillsMembers | app/hyperlocal/page.tsx:118 | A skill is in the flattened list exactly when some developer lists it. |
| CommonSkills.Bump | app/hyperlocal/page.tsx:120-123 | One step of the `reduce`: a seen skill counts one more in place, a new one is appended with count 1. |
| CommonSkills.Tally | app/hyperlocal/page.tsx:119-125 | The `reduce` as a left fold of `Bump`; its properties are `TallyIsTally`. |
| CommonSkills.CountSkills | app/hyperlocal/page.tsx:119-125 | The counting loop builds the fold `Tally`. The result lists each distinct skill once, with its exact number of occurrences, in first-seen order, and misses none. |
| CommonSkills.TallyIsTally | app/hyperlocal/page.tsx:119-125 | The fold satisfies the same four properties: distinct keys, exact counts, every skill covered, first-seen order. |
| CommonSkills.Insert | app/hyperlocal/page.tsx:127 | Placing one entry into a list sorted by count, behind every entry with at least its count; the result is one longer. |
| CommonSkills.SortByCountDesc | app/hyperlocal/page.tsx:127 | The stable sort by count, highest first; the result has the input's length. Permutation and order are `SortPermutes` and `SortRanked`. |
| CommonSkills.SortPermutes | app/hyperlocal/page.tsx:127 | The sort returns a permutation of its input: the same multiset and the same length. |
| CommonSkills.SortRanked | app/hyperlocal/page.tsx:127 | Given entries whose skills first occur in increasing order (as a tally's do), the sorted list is ordered by count, highest first, and equal counts keep that first-occurrence order. |
| CommonSkills.SortKeepsSorted | app/hyperlocal/page.tsx:127 | An input already ordered by count comes back unchanged. Equal counts are never swapped. |
| CommonSkills.Names | app/hyperlocal/page.tsx:129 | `.map(([skill]) => skill)`: the skills of the entries, in order. |
| CommonSkills.CommonSkills | app/hyperlocal/page.tsx:117-130 | `getCommonSkills`: flatten, tally, sort and keep the first six names; see `CommonSkillsAreTopSkills`. |
| CommonSkills.RankedTally | app/hyperlocal/page.tsx:126-127 | The sorted tally is ordered by count and then by first occurrence. Each entry carries its skill's true count, and every skill of the list has an entry. |
| CommonSkills.CommonSkillsAreTopSkills | app/hyperlocal/page.tsx:117-130 | The result is a valid top-skills list: at most six distinct skills, all occurring. They are ordered by count, ties by first appearance. Any skill left out means the list is full and ranks below everything listed. |
| CommonSkills.TopSkillsUnique | app/hyperlocal/page.tsx:126-129 | For a given skill list and limit, only one list is a valid top-skills list. |
| CommonSkills.CommonSkillsUnique | app/hyperlocal/page.tsx:117-130 | Any valid top-skills list for six is exactly what `getCommonSkills` returns. |
| CommonSkills.GetCommonSkills | app/hyperlocal/page.tsx:117-130 | The imperative pipeline (loop count, sort, slice, map) returns `CommonSkills` and a valid top-skills list. |
| CommonSkills.MockAllSkills | app/hyperlocal/page.tsx:118 | Flattening the sample developers gives their nine skills in declared order, React twice. |
| CommonSkills.MockTally | app/hyperlocal/page.tsx:119-125 | The sample's counts: React 2, then the other seven skills once each, in first-seen order. |
| CommonSkills.MockCommonSkills | app/hyperlocal/page.tsx:117-130 | On the sample developers the overlay shows React, TypeScript, Node.js, Python, AI/ML, TensorFlow. Next.js and Security are cut by the limit. |
| CommonSkills.RepeatedSkillExample | app/hyperlocal/page.tsx:117-130 | For skill lists [React, TypeScript], [Python, React], [React] the result is React, TypeScript, Python. |
| CosmicNav.NavItems | components/CosmicNav.tsx:28-64 | The five sections in display order, with their ids, labels, `href`s and colours. |
| CosmicNav.IsActive | components/CosmicNav.tsx:112 | `pathname.startsWith(item.href)`, the same test as the mobile list at line 190. |
| CosmicNav.FirstActive | components/CosmicNav.tsx:87 | `find` returns the first position whose item is active. No earlier item is active, and when there is none, no item at all is active. |
| CosmicNav.ActiveItem | components/CosmicNav.tsx:87 | `activeItem` is an active section of the table. It is absent exactly when no section's `href` prefixes the path. |
| CosmicNav.NavHrefsPrefixFree | components/CosmicNav.tsx:28-64 | No section's `href` is a prefix of another's, so in particular they are distinct. |
| CosmicNav.AtMostOneActive | components/CosmicNav.tsx:112 | For any path, at most one section is highlighted (`isActive`). When one is, it is `activeItem`. |
| CosmicNav.ActiveByPrefix | components/CosmicNav.tsx:87 | Matching is by prefix: every path that begins with `/hyperlocal` (or `/hackathons`) highlights that section, whatever follows. |
| CosmicNav.NoActiveItem | components/CosmicNav.tsx:87 | `/`, the empty path, `/create-id` and `/hyper` highlight nothing. |
| CosmicNav.HasDevId | components/CosmicNav.tsx:81 | `user?.devId` is truthy: there is a user and its `devId` is a non-empty string. |
| CosmicNav.ProfileHref | components/CosmicNav.tsx:80-85 | With a truthy `devId`, the link is longer than `/profile/`. |
| CosmicNav.ProfileHrefTarget | components/CosmicNav.tsx:80-85 | The link names the user's `devId` after `/profile/` exactly when the user has a non-empty one. Otherwise, including when there is no user, it is `/create-id`. |
| CosmicNav.ProfileHrefInjective | components/CosmicNav.tsx:80-85 | Users with different identities get different profile links. |
| CosmicNav.Toggled | components/CosmicNav.tsx:169 | The menu button's new flag, `!isOpen`. |
| CosmicNav.Closed | components/CosmicNav.tsx:197 | A menu link's new flag, `false`. |
| CosmicNav.MenuLaws | components/CosmicNav.tsx:169 | Toggling flips the flag and toggling twice restores it. Closing always gives closed and is idempotent. |
| CosmicNav.MobileMenu.constructor | components/CosmicNav.tsx:68 | The menu starts closed. |
| CosmicNav.MobileMenu.Toggle | components/CosmicNav.tsx:169 | The menu button flips `isOpen`. |
| CosmicNav.MobileMenu.Close | components/CosmicNav.tsx:197 | A click on a menu link sets `isOpen` to false, whatever it was. |
| LayoutWrapper.HideNav | components/LayoutWrapper.tsx:8 | `hideNav`: the path is exactly `/` or exactly `/create-id`. |
| LayoutWrapper.Render | components/LayoutWrapper.tsx:13 | The content is rendered unchanged. |
| LayoutWrapper.RenderShape | components/LayoutWrapper.tsx:8-13 | The bar is hidden exactly on `/` and `/create-id`. The wrapper class is `pt-20` exactly when the bar is shown and `""` exactly when it is not. The children are always rendered. |
| LayoutWrapper.SubroutesShowNav | components/LayoutWrapper.tsx:8 | The test is exact equality, so `/create-id/step`, `/create-id/`, any `/profile/…` page and any other route below `/` show the bar. |
| LayoutWrapper.ActiveSectionShowsNav | components/LayoutWrapper.tsx:8-12 | Every route that highlights a navigation section also shows the bar. |
| LayoutWrapper.ProfileLinkShowsNav | components/LayoutWrapper.tsx:8-12 | Following the avatar link shows the bar exactly when the user has an identity. Without one the link leads to `/create-id`, where the bar is hidden. |

## Left out

- Rendering: JSX markup, framer-motion animations, the Tailwind class strings of the
  markup and the `skillColors` table. They are presentation only. Two kinds of class
  string are kept as data: the `pt-20`/`""` wrapper choice and the `color` gradient of
  each section, which the section table records but no lemma is about.
- The background particles. They are drawn from `Math.random` floats and affect no state.
- `distance`: kept as a `real` field of the record, because it is only displayed.
- Timers: the 1000 ms period of `setInterval`, `clearInterval` and the effect's
  cleanup are event-loop machinery. Only the per-tick update, and the rule that ticks
  arrive only while the swarm is active, are modelled. A `Tick` event is one firing of
  the single interval, so the model assumes that at most one interval runs; in the
  code this follows from the effect's `[swarmActive]` dependency and its cleanup, and
  the model does not prove it.
- The `isMounted` flag. It only gates decorative rendering.
- The scroll listener and `scrolled = window.scrollY > 20`. These are browser input
  and a floating-point comparison used only for styling.
- `usePathname` and `useAppStore`. They are framework and store hooks outside this
  code, so the path and the user are parameters.
- `app/orbit-match/page.tsx`. It is static markup with no state.
- Decorative controls with no state effect are not given any behaviour: the buttons
  inside the detail card, the fixed `12:09` text, and the unused `mockNearbyDevs`
  import. The card's `stopPropagation` (line 442) keeps a click inside the card from
  reaching the backdrop's `setSelectedDev(null)`; for that reason the model has no
  "click inside the card" event, and only clicks on the backdrop or the close button
  dismiss.
- Icon components of the section table. They are presentation only.
- Decimal.NatToString: follows JavaScript's integer rendering only below 10^21.
  Larger values use exponent notation there, and a session never comes close.
- TimeFormat.FormatTime: takes whole, non-negative seconds. Negative or fractional
  inputs cannot arise, because the countdown starts at 1800 and is clamped at zero.
- CommonSkills.CountSkills: assumes no skill name is an inherited member of
  `Object.prototype` (such as `constructor` or `__proto__`). Such a key would disturb
  the counting object.
- CommonSkills.CountSkills: assumes no skill name is integer-like. `Object.entries`
  lists integer-like keys first, in numeric order. The sample data contains neither
  kind.
- CommonSkills.CommonSkills: takes the developer list as a parameter. The screen
  always passes the fixed sample, and `MockCommonSkills` states the result for it.
- Swarm.SwarmSession.Select: takes the clicked record itself, because the card's
  handler passes the record. No lookup by id takes place, so there is no unknown-id
  case.
