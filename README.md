# Petopia pet-clinic screens: the logic behind the timeline and the session

This project models the three pieces of logic in the client screens of a pet-clinic
appointment app, and proves properties about them:

- **Health-history timeline** (`PetProfile`). `convertData` groups a pet's appointments
  into sections, one per calendar year, with the newest year first. It first collects the
  distinct years in a `Set`, updating it one appointment at a time, and sorts them
  descending. If there is exactly one year, it returns one section that holds the fetched
  list unchanged. Otherwise it builds one section per year: the `filter` of that year's
  appointments, sorted newest first. A focus effect runs the conversion only when the pet
  has an appointment list. The year loop is a `method` with loop invariants. Filter, sort
  and map are functions. The screen state is a class with two fields: the fetched
  appointment list and the sections shown.
- **Appointment card labels** (`AppointmentContent`). `extractDate` renders `day/month`
  with the month as `getMonth() + 1` and no padding. `extractTime` renders `HH:MM` with
  both fields left-padded by `padStart(2, '0')`. A missing report, place or doctor name
  is shown as `Không xác định`. Decimal rendering, reading decimals back, and `padStart`
  are string functions.
- **Session slice** (`UserSlice`). The Redux slice has three reducers over
  `{user, isLoggedIn}`: `login`, `logout` and `initData`. The reducer's effect is the pure
  function `Reduce`. The store's in-place updates are the class `UserSlice.UserSlice`,
  whose three methods are proved against `Reduce`.

`Types` holds the appointment record. `Sorting` holds the ordering facts that both sorts
share. The JavaScript `Date` getters (`getTime`, `getFullYear`, `getMonth`, `getDate`,
`getHours`, `getMinutes`) are not modelled: an appointment's date is a record of their
results, so the year and the timestamp are arbitrary functions of the date.

Only the several-years branch sorts its sections by date. The one-year branch
(`components/user/PetProfile.tsx:86-91`) does not sort: its single section keeps the
fetched list in its original order, and the model does the same.

## Model

| member | source | states |
|---|---|---|
| PetProfile.CollectYears | components/user/PetProfile.tsx:80-84 | the collected years have no repetitions, and their set is exactly the set of years of the appointments |
| PetProfile.SortYears | components/user/PetProfile.tsx:85 | the years come out strictly descending, with the same members and the same count as the distinct input years |
| PetProfile.YearSection | components/user/PetProfile.tsx:95-107 | the section carries the year as its title, holds exactly that year's appointments, is ordered by timestamp, newest first, and keeps appointments with equal timestamps in their input order |
| PetProfile.Group | components/user/PetProfile.tsx:93-109 | one section per year, in the order of the years, each titled with its year, holding exactly that year's appointments, newest first, equal timestamps in input order |
| PetProfile.GroupTitles | components/user/PetProfile.tsx:93-107 | the set of section titles equals the set of years mapped over |
| PetProfile.FlattenCounts | components/user/PetProfile.tsx:93-98 | sections with distinct titles that each hold their own year's appointments together hold every appointment of a titled year exactly as often as the input, and nothing else |
| PetProfile.SectionsArePermutation | components/user/PetProfile.tsx:93-98 | when the titles cover every year once, all the sections together are a permutation of the input: nothing is dropped or duplicated |
| PetProfile.OrderedYears | components/user/PetProfile.tsx:85-86 | a descending reordering of distinct years is strictly descending, holds the same years, and has one entry per distinct year |
| PetProfile.SingleYearIsConversion | components/user/PetProfile.tsx:86-91 | with exactly one year, the single section titled with that year, holding the input list in its original order, meets the whole conversion promise |
| PetProfile.GroupIsConversion | components/user/PetProfile.tsx:93-110 | with zero or several years, the per-year sections meet the whole conversion promise |
| PetProfile.ConvertData | components/user/PetProfile.tsx:79-113 | titles are strictly descending and equal the set of years, and the sections are a permutation of the input; one year gives exactly one section holding the input unchanged; otherwise each section holds exactly its year's appointments, newest first, with equal timestamps in input order; an empty list gives no sections |
| PetProfile.PetProfileView.constructor | components/user/PetProfile.tsx:35-36 | the screen starts with no appointment list and no sections |
| PetProfile.PetProfileView.ReceivePet | components/user/PetProfile.tsx:59-68 | the fetched appointment list replaces the stored one, and nothing else changes |
| PetProfile.PetProfileView.FocusEffect | components/user/PetProfile.tsx:114-116 | without an appointment list the previous sections stay as they were; with one, the sections are its conversion; the appointment list itself is never changed |
| Sorting.KeepKey | components/user/PetProfile.tsx:95-98 | the `filter` of the elements with one key, in their input order; it has no contract of its own, and KeepKeyCounts, SortIsStable and PetProfile.TiesInInputOrder state what it keeps |
| Sorting.Insert | components/user/PetProfile.tsx:99-103 | one step of the comparator sort, which puts an element ahead of the first one with a key no larger than its own; it has no contract of its own, and InsertCounts, InsertOrdered, InsertAheadOfEqualKeys and InsertKeepsOtherKeys state its properties |
| Sorting.SortDescending | components/user/PetProfile.tsx:99-103 | the comparator sort by `getTime()` difference, newest first, and also the year sort `(a, b) => b - a` at line 85; it has no contract of its own, and SortOrdered, SortPermutes and SortIsStable state that its result is ordered, a permutation, and stable |
| Sorting.KeepKeyCounts | components/user/PetProfile.tsx:95-98 | the `filter` by year keeps every element of that year exactly as often as the input holds it, and no element of another year |
| Sorting.InsertCounts | components/user/PetProfile.tsx:99-103 | one insertion step of the sort adds exactly the inserted element |
| Sorting.InsertOrdered | components/user/PetProfile.tsx:99-103 | inserting into a list ordered newest first keeps it ordered |
| Sorting.SortOrdered | components/user/PetProfile.tsx:99-103 | the comparator sort `b - a` leaves the keys non-increasing |
| Sorting.SortPermutes | components/user/PetProfile.tsx:99-103 | the sort returns a permutation of its input |
| Sorting.InsertAheadOfEqualKeys | components/user/PetProfile.tsx:99-103 | an inserted element ends up in front of the elements that share its key, and their order is unchanged |
| Sorting.InsertKeepsOtherKeys | components/user/PetProfile.tsx:99-103 | inserting an element does not change the order of the elements of any other key |
| Sorting.SortIsStable | components/user/PetProfile.tsx:99-103 | the sort is stable, as ECMAScript requires of `Array.prototype.sort`: for every key, the elements of that key come out in their input order |
| Sorting.DistinctPermutation | components/user/PetProfile.tsx:85 | reordering years that have no repetitions leaves them without repetitions |
| Sorting.DistinctCardinality | components/user/PetProfile.tsx:86 | a collection of years without repetitions has as many members as entries, so `yearSet.size` counts the distinct years |
| AppointmentContent.DecimalString | components/user/AppointmentContent.tsx:11 | the decimal rendering of a number is digits only, with no leading zero unless the number is 0; one digit below 10, two digits from 10 to 99 |
| AppointmentContent.DecimalRoundTrip | components/user/AppointmentContent.tsx:11 | reading the decimal rendering back gives the original number |
| AppointmentContent.PadStart | components/user/AppointmentContent.tsx:18 | the padded string is the original preceded by pad characters up to the target length; a string already that long is unchanged |
| AppointmentContent.LeadingZerosKeepValue | components/user/AppointmentContent.tsx:18 | zeros in front of a digit string do not change the number it denotes |
| AppointmentContent.ZeroPadKeepsValue | components/user/AppointmentContent.tsx:18 | padding a digit string with `'0'` keeps it a digit string with the same value |
| AppointmentContent.FirstSlash | components/user/AppointmentContent.tsx:11 | finds the first slash of a label, with no slash before it |
| AppointmentContent.ExtractDate | components/user/AppointmentContent.tsx:7-12 | the date label is digits, one slash, then digits; the part before reads back as the day and the part after as month index + 1; neither part is zero-padded; a month index of 0..11 gives a month number of 1..12 |
| AppointmentContent.ExtractDateRoundTrip | components/user/AppointmentContent.tsx:7-12 | parsing a date label gives back the day and month index + 1 |
| AppointmentContent.ExtractTimeFields | components/user/AppointmentContent.tsx:14-19 | for hours 0..23 and minutes 0..59 the time label has 5 characters, a colon at index 2, and fields that read back as the hours and the minutes |
| AppointmentContent.ExtractTime | components/user/AppointmentContent.tsx:14-19 | for any numbers, the time label is two fields around a colon; each field is digits only, at least 2 characters long, and reads back as the hours or the minutes; a single digit gets exactly one `'0'` in front, and a field of two or more digits is written unpadded |
| AppointmentContent.TimeField | components/user/AppointmentContent.tsx:16-18 | one time field is at least two digits long and reads back as its number; below 10 it is `'0'` followed by the digit, and from 10 on it is the plain decimal rendering |
| AppointmentContent.DisplayOrUnknown | components/user/AppointmentContent.tsx:80 | a present field is shown as it is, and a missing one as `Không xác định`; the text is empty only for a present empty string. The place at line 96 and the doctor name at line 117 use the same rule |
| AppointmentContent.AppointmentCard | components/user/AppointmentContent.tsx:28-129 | the card shows the `extractDate` and `extractTime` labels of the visit's date; the report, the place and the doctor's name are shown as they are when present and as `Không xác định` when missing |
| UserSlice.InitialStateIsEmpty | redux/UserSlice.ts:10-23 | every profile field of the initial state is the empty string, and nobody is signed in |
| UserSlice.Reduce | redux/UserSlice.ts:28-41 | login signs the given user in; logout signs out and leaves the empty profile; initData installs both fields of the given state |
| UserSlice.LoginForgetsPriorState | redux/UserSlice.ts:29-32 | after a login the state is the given user, signed in, whatever it was before |
| UserSlice.LogoutIdempotent | redux/UserSlice.ts:33-36 | a logout reaches the initial state, so a second logout changes nothing |
| UserSlice.LoginThenLogout | redux/UserSlice.ts:29-36 | a login followed by a logout returns to the initial state |
| UserSlice.InitDataInstalls | redux/UserSlice.ts:37-40 | after initData the state equals the given state, field for field |
| UserSlice.RunEndingInLogout | redux/UserSlice.ts:33-36 | any sequence of actions that ends with a logout ends in the initial state |
| UserSlice.SignedOutMeansEmpty | redux/UserSlice.ts:29-36 | using only logins and logouts, a signed-out session always holds the empty profile |
| UserSlice.UserSlice.constructor | redux/UserSlice.ts:10-27 | the store starts in the initial state |
| UserSlice.UserSlice.Login | redux/UserSlice.ts:29-32 | the user becomes the payload and the session is signed in, as `Reduce` says for a login |
| UserSlice.UserSlice.Logout | redux/UserSlice.ts:33-36 | the state becomes the initial state, as `Reduce` says for a logout |
| UserSlice.UserSlice.InitData | redux/UserSlice.ts:37-40 | the state becomes the payload, field for field, as `Reduce` says for initData |

## Left out

- The health-history request is not modelled: the `fetch` to `/user/health-history`, the bearer token from `AsyncStorage`, the JSON body, and the `alert` on error. Its result enters the model as the parameter of `ReceivePet`.
- React state and effects (`useState`, `useEffect`, `useFocusEffect`, `setProcessedData`) are plain field assignments. The `SectionList` and all JSX rendering, styles, gradients, masked views and screen-percentage sizes are not modelled.
- JavaScript `Date` parsing, time zones, and the case of an invalid date (`NaN` from the getters, which makes the comparator return `NaN`) are not modelled. The getters' results are fields of `Types.DateFields`.
- The engine's sort algorithm is not modelled. The model sorts by insertion and proves what ECMAScript requires of any implementation here: the result is ordered by the comparator, is a permutation of the input, and is stable.
- PetProfile.CollectYears: the contract does not say that the years are listed in order of first occurrence, as a JavaScript `Set` keeps them. The sort right after discards that order.
- Aliasing is not modelled. In the one-year branch the section shares the fetched array. The sort in the other branch sorts a fresh array in place. With sequence values, "the fetched list is never reordered" reduces to `FocusEffect` not changing the stored appointment list.
- `minutes.toFixed(0)` is modelled as whole-number rendering, which is what it gives for the integer results of `getMinutes()`.
- The Redux Toolkit machinery (`createSlice`, action creators, Immer drafts) is not modelled. Only the reducers' effects on the two fields are.
- components/user/CategoryContent.tsx is rendering and navigation only. screens/partner/VetHomeScreen.tsx is static text. Neither is part of this model.
