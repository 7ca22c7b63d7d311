# Inspection-line inventory, in Dafny

This project models the core of a small quality-control program for a
production line (`main.py`). Each part is checked against fixed criteria:
weight 95–105 g, colour "azul" or "verde", length 10–20 cm, checked in that
order. A part that passes gets the next identifier and goes into the approved
list and into the open box. The box is sealed when it reaches 10 parts. A
part that fails is recorded with the reason of the first criterion it
failed. Parts can be removed by identifier. A report summarises the
inventory: totals, the approval rate, box occupancy, and a histogram of
rejection reasons.

The program's five global variables are modelled as one immutable `State`
record (`Inventory.State`). Each operation is a pure function from state to
state:

| module | file | contents |
|---|---|---|
| `Wrappers` | wrappers.dfy | `Option` |
| `Seqs` | seqs.dfy | first-match search (`IndexOf`), deletion at an index (`list.pop`), ordering predicates |
| `Quality` | quality.dfy | the criteria constants, `Validate`, and the reference list `FailedCriteria` |
| `Inventory` | inventory.dfy | `State` and the registration transition (`Inspect`, `Register`, `InspectAll`), plus the invariant `Valid` |
| `Removal` | removal.dfy | `Remove` and its lemmas |
| `Reporting` | reporting.dfy | `GenerateReport`, the reason histogram (`Tally`) and `Percentage` |
| `Demo` | demo.dfy | the 21 demonstration readings, and what registering them produces |
| `FloatReadings` | float_readings.dfy | the validator on IEEE doubles, including not-a-number (see Findings) |

The central invariant is `Inventory.Valid`:
- identifiers are strictly increasing in each list;
- no identifier is in both lists;
- every identifier lies in 1..counter;
- the open box holds fewer than 10 parts, and no sealed box holds more than 10;
- the sealed boxes, followed by the open box, hold exactly the approved list, in order.

Sealed boxes are not re-balanced after a removal: a sealed box can drop
below 10 parts and stays sealed, and a later part still goes into the open
box (`Removal.RemoveFromSealedBox`).

Registration preserves `Valid`, and so does removal. Removal preserves it because identifiers are unique: taking out the first match from the approved list, from the open box and from each sealed box removes the same single part everywhere.

## Model

| member | source | states |
|---|---|---|
| Quality.Validate | main.py:49-75 | The part is accepted exactly when no criterion fails. When it is rejected, the reason is the first failing criterion in the order weight, colour, length, taken from the independent list `FailedCriteria` of all failures. |
| Quality.WeightCheckedFirst | main.py:62-64 | A weight outside [95, 105] gives the weight reason whatever the colour and length. So a part that fails both weight and colour gets the weight reason, because weight is checked first. |
| Quality.ColourCheckedSecond | main.py:66-68 | With the weight in range, a colour other than azul/verde gives the colour reason whatever the length. |
| Quality.LengthDecidesLast | main.py:70-75 | With weight and colour valid, the verdict depends on the length alone: accepted when it lies in [10, 20], otherwise the length reason. |
| Quality.BoundsInclusive | main.py:63-72 | All four bounds are inclusive (95, 105, 10 and 20 are accepted). Values just outside a bound are rejected with that criterion's reason. |
| Seqs.IndexOf | main.py:203-205 | The search finds an index exactly when the value occurs, and it is the first index holding the value. |
| Inventory.Inspect | main.py:106-144 | The counter goes up by one. An accepted part is appended to the approved list and to the stored parts under the new id. A rejected part is appended to the rejected list with the new id and the first failing reason, and nothing else changes. Either the boxes are unchanged, or exactly the open box plus the new part is sealed at capacity 10 and the open box becomes empty. |
| Inventory.Register | main.py:94-105 | An input that did not parse leaves the state unchanged, so its tentative id is given back. A parsed input consumes one id and adds one part. The part is approved exactly when it is accepted and rejected exactly when it is rejected. |
| Inventory.InspectAll | main.py:400-434 | Registering n readings advances the counter by n and adds n parts. The old approved and rejected lists are kept as prefixes. |
| Inventory.EmptyValid | main.py:38-42 | The program starts in a consistent state. |
| Inventory.InspectPreservesValid | main.py:106-144 | Registration preserves the invariant. The new id ends up in the approved list exactly when the part was accepted, and in the rejected list exactly when it was rejected. |
| Inventory.RegisterPreservesValid | main.py:94-105 | Interactive registration preserves the invariant, including when the input did not parse. |
| Inventory.InspectAllPreservesValid | main.py:400-434 | Any run of registrations preserves the invariant. |
| Inventory.AcceptedStep | main.py:119-131 | One accepted part is appended to the approved list. It either joins the open box or, as the 10th part, seals the box. |
| Inventory.AcceptedRunFillsBox | main.py:126-131 | Consecutive accepted parts stay in the open box while it is below capacity. The part that brings it to 10 seals exactly the open box plus the new parts and leaves the open box empty. |
| Inventory.InspectAllConcat | main.py:400-401 | Registering two batches one after the other is the same as registering their concatenation. |
| Inventory.RejectedRunKeepsBoxes | main.py:132-144 | A run of rejected parts leaves the approved list and the boxes untouched. It appends each rejection with consecutive fresh ids and its own reason. |
| Removal.DropId | main.py:209-212 | A list without the id is unchanged. Otherwise the result is the list with exactly one part taken out: the first part carrying the id. Every part before it and after it is kept, in order. |
| Removal.FlattenDropFromEach | main.py:215-220 | When no id is stored twice, taking the first match out of every sealed box is the same as taking the first match out of all sealed parts laid end to end. So at most one part leaves the sealed boxes. |
| Removal.Remove | main.py:200-229 | The result reports found exactly when the id is approved or rejected, and not found leaves the state unchanged. An approved id is removed from the approved list, from the open box and from every sealed box, and the rejected list is untouched. An id that is only rejected is removed from the rejected list alone. The counter never changes. |
| Removal.RemoveApprovedPreservesValid | main.py:203-221 | Removing an approved part preserves the invariant, removes the id everywhere, and takes exactly one part out of the boxes. |
| Removal.RemoveRejectedPreservesValid | main.py:224-229 | Removing a rejected part preserves the invariant and leaves the boxes as they were. |
| Removal.RemovePreservesValid | main.py:200-229 | Removal preserves the invariant. Afterwards the id is in neither list. The boxes lose one part exactly when the id was approved. |
| Removal.RemoveFromSealedBox | main.py:215-220 | Removing a part held in a sealed box changes only that box, which shrinks by one and is not re-sealed. The open box and the number of sealed boxes are unchanged. |
| Reporting.Percentage | main.py:299-303 | The rate is 0 when there are no parts; otherwise rate × total = 100 × approved. It lies in [0, 100], is 0 exactly when nothing was approved, and is 100 exactly when everything was approved. |
| Reporting.Bump | main.py:325-329 | A reason already seen has its count increased by one in place. A new reason is appended with count 1. Keys stay distinct, and the total grows by one. |
| Reporting.Tally | main.py:323-329 | The histogram has distinct keys, and its counts add up to the number of rejected parts. |
| Reporting.TallyCounts | main.py:323-329 | The histogram has an entry for exactly the reasons that occur. Each entry's count is that reason's multiplicity. |
| Reporting.TallyFirstOccurrenceOrder | main.py:331-333 | Entries come in the order in which their reasons first occur, which is the order a Python dict iterates in. |
| Reporting.SharesSumToHundred | main.py:332-333 | The per-reason percentages of a non-empty histogram add up to exactly 100. |
| Reporting.GenerateReport | main.py:292-303 | total = approved + rejected. The counts are the list lengths. The rate is `Percentage(approved, total)` and lies in [0, 100]. The histogram counts add up to the rejected count. |
| Reporting.ReportHistogram | main.py:318-333 | The report's histogram has an entry for exactly the reasons some rejected part carries, in order of first occurrence. Each entry counts the rejected parts with that reason. |
| Reporting.ReportSharesSumToHundred | main.py:331-334 | When something was rejected, the per-reason percentages in the report add up to 100. |
| Reporting.ReportBoxesHoldApproved | main.py:293-297 | On a consistent inventory, the sealed boxes plus the open box hold exactly the approved count, and the open box is below capacity. |
| Demo.FirstTenSealBox | main.py:366-375 | The first ten demonstration readings are all approved and seal one box of 10. |
| Demo.NextThreeOpenBox | main.py:378-381 | The next three are approved into the open box. |
| Demo.SixRejected | main.py:383-393 | The next six are rejected, two each for weight, colour and length, with consecutive ids. |
| Demo.LastTwoOnBounds | main.py:394-396 | The two readings exactly on the bounds are approved into the open box. |
| Demo.AutoFill | main.py:349-434 | The demonstration registers its 21 readings in order. It consumes 21 fresh ids, adds 21 parts and keeps the lists already held as prefixes. |
| Demo.AutoFillOutcome | main.py:364-434 | From any state with an empty open box, the demonstration adds 15 approved and 6 rejected parts, seals one box of 10 and leaves 5 parts open. |
| Demo.AutoFillRejections | main.py:383-393 | The six demonstration rejections carry the 14th to 19th new ids and the reasons weight, weight, colour, colour, length, length. |
| Demo.AutoFillFromEmpty | main.py:364-397 | On a fresh program: 15 approved, 6 rejected with ids 14–19, one sealed box of 10, and 5 parts in the open box. |
| Demo.OneGoodOneHeavy | main.py:293-303 | After parts (100, azul, 15) and (200, azul, 15) on a fresh program: ids 1 and 2, a total of 2, 1 approved and 1 rejected, an approval rate of 50, and a histogram with one weight rejection. |
| FloatReadings.ValidateAsWritten | main.py:63-72 | With IEEE comparisons, the weight reason is given exactly when the weight is ordered below 95 or above 105. An accepted part never has an infinite weight or length. |
| FloatReadings.NaNReadingAccepted | main.py:99-101 | A part whose weight and length both parse as not-a-number is approved. |
| FloatReadings.ValidateFloat | main.py:63-75 | The corrected validator accepts exactly finite readings that fail no criterion, and a not-a-number weight gets the weight reason. |
| FloatReadings.ValidateFloatOnFinite | main.py:63-75 | On finite readings the corrected validator is `Quality.Validate`, the validator the rest of the model uses. |
| FloatReadings.DisagreeOnlyOnNaN | main.py:63-72 | The validator as written and the corrected one disagree exactly when the weight is not-a-number, or when the weight and colour pass and the length is not-a-number. Where they disagree, the corrected one rejects. |

## Left out

- The console menu, prompts, printing and message texts (`display_menu`, `main`, `list_parts`, `list_boxes`, and the printed rejected-parts list in the report) are left out. They only display the state. The three rejection messages are fixed strings, one per criterion, and are modelled as the three constructors of `Quality.Reason`.
- Reading input is left out, as is the conversion of text to numbers (`float`, `int`). `Inventory.Register` takes an already parsed `Option<Reading>`, where `None` is a weight or length that did not parse. Removal takes an already parsed integer. An identifier that does not parse returns before any change, so it is the identity and needs no model.
- The colour's `.lower().strip()` normalisation is left out. `Reading.colour` is the normalised string, because Dafny strings have no case folding.
- Weights and lengths are exact reals in the inventory model, so double rounding is not modelled. Infinities and not-a-number are modelled separately, in `FloatReadings`.
- Reporting.GenerateReport: the approval rate is a real, stated through `Percentage`. The program's rounding to two decimals when it prints the rate is not modelled.
- Reporting.SharesSumToHundred: the sum is exact over reals. The printed per-reason percentages are rounded to one decimal and need not add up to 100.0 exactly.

## Findings

| source | as written | input that shows it | evidently intended | confidence | as-written member | corrected member |
|---|---|---|---|---|---|---|
| main.py:63-72 | The range checks are `x < MIN or x > MAX` on `float(input())`. Both comparisons are false for not-a-number, so such a value passes. | weight "nan", colour "azul", length "nan": the part is approved and boxed | A value that is not a number in [MIN, MAX] fails its criterion | high (not executed) | FloatReadings.NaNReadingAccepted | FloatReadings.ValidateFloat |
