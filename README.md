# Matrix position-equipment budgeting, modelled in Dafny

Matrix is a Flask application that lets a city budget the equipment
each position needs. For every position in the organisation
(department > division > position), it records the hardware and
software each person needs. It prices those requirements and rolls the
costs up to divisions and departments. It keeps the organisation in
step with the NeoGov HR system and scopes what each user may see.

This project models the logic behind those features. It proves the
properties each service promises about its results and its tables.

| Dafny module (file) | What it models |
|---|---|
| `Wrappers` (wrappers.dfy) | `Option` for Python's `None`, and `Result` for the exceptions the services raise |
| `Seqs` (seqs.dfy) | the filtered query results and `sum(...)` aggregates the services compute |
| `Text` (text.dfy) | the parts of Python's `str`/`int` behaviour the code relies on: `strip`, ASCII case mapping, prefix/suffix tests, `split`, base-10 `int(text)` and `str(n)` |
| `OrgModel` (org_model.dfy) | the `org` schema rows: departments, divisions, positions and employees |
| `EquipmentModel` (equipment_model.dfy) | the `equip` schema: hardware types, hardware items, software products, tenant coverage and the position requirement rows |
| `CostHistory` (cost_history.dfy) | the effective-dated `budget` history rows, the point-in-time validity test, and the close-then-open update |
| `UserModel` (user_model.dfy) | users, roles, scopes and the `User` convenience checks |
| `CostService` (cost_service.dfy) | position pricing, tenant-share allocation over covered headcount, and division and department roll-ups |
| `EquipmentService` (equipment_service.dfy) | create, update and deactivate for catalog items, each cost change kept in the history |
| `RequirementService` (requirement_service.dfy) | the requirement store: add, update, remove, bulk set with the `max_selections` check, copy, workflow status, usage counts and "division common" items |
| `HrSync` / `HrSyncRun` (hr_sync.dfy, hr_sync_run.dfy) | the code-keyed table diff of the HR sync, user provisioning, stats merging and the full run, as functions and as in-place table updates proved against them |
| `NeoGov` (neogov.dfy) | the normalisation of raw HR records, and the fetch without an API key |
| `RequirementForms` (requirement_forms.dfy) | the hardware and software selection form parsers |
| `OrganizationService` (organization_service.dfy) | scope-filtered department, division and position lists, the access checks, and the authorized-headcount total |
| `UserService` (user_service.dfy) | provisioning, role changes, activation, scope replacement and login recording on the user table |
| `Decorators` (decorators.dfy) | the decisions of `role_required`, `permission_required` and `scope_check` |
| `AdminScopes` (admin_scopes.dfy) | the pre-selected scope type and the scope list built from the admin form |
| `Config` (config.dfy) | production secret validation, the excluded-departments setting and the dev-login gate |

Tables that are only ever soft-deleted are sequences, and a row's id is
its index + 1, as autoincrement gives. The requirement tables are
hard-deleted, so they carry an explicit next-id counter. Code that
updates state in place is modelled as classes whose methods update
sequence fields:

- `EquipmentService.EquipmentCatalog`
- `RequirementService.RequirementStore`
- `HrSyncRun.HrDatabase`
- `UserService.UserStore`
- `NeoGov.NeoGovClient` (its API key; the fetch without a key)

Each such method is proved against functions of the model: the
catalog, requirement, user and client methods against functions of their
own module, and `HrSyncRun.HrDatabase` against the `HrSync` functions and
the value-level methods of `HrSyncRun` (`OrganizationRows`, `UserRows`),
whose contracts state what the tables become.

The bulk set (`set_position_requirements`) and the copy use the
corrected `max_selections` check. The check as written is modelled
beside it; see "## Findings".

## Model

| member | source | states |
|---|---|---|
| UserModel.FullName | app/models/user.py:148-151 | the display name is the first name, one space, then the last name |
| UserModel.RoleName | app/models/user.py:153-156 | the role's own name, or "unknown" for a user without a role |
| UserModel.HasRole | app/models/user.py:161-163 | `has_role` holds exactly when the role's name is one of those asked for; without a role, exactly when "unknown" is |
| UserModel.HasRoleCases | app/models/user.py:160-162 | `has_role` holds exactly when the role's name is one of those asked for; without a role, exactly when "unknown" is |
| UserModel.HasPermission | app/models/user.py:164-171 | false without a role; otherwise true exactly when one of the role's permissions has that name |
| UserModel.HasOrgScope | app/models/user.py:175-177 | true exactly when some scope row has the type "organization" |
| UserModel.DepartmentIdsOf | app/models/user.py:179-195 | an id is listed exactly when a department-type scope row carries it; never more ids than rows |
| UserModel.DivisionIdsOf | app/models/user.py:197-210 | an id is listed exactly when a division-type scope row carries it; never more ids than rows |
| UserModel.DepartmentIdsAppend | app/models/user.py:191-195 | the list keeps scope order: one more scope row appends its own id if it is a department scope with an id, and nothing otherwise |
| OrganizationService.UserCanAccessDepartment | app/services/organization_service.py:262-275 | true exactly when the user has org scope, a department scope for the id, or a scoped division belonging to that department |
| OrganizationService.UserCanAccessPosition | app/services/organization_service.py:278-296 | org-scoped users always pass; for anyone else an unknown position is refused, and a found position (active or not) is open exactly when its division's department or the division itself is scoped |
| OrganizationService.FindPositionUnique | app/services/organization_service.py:197-199 | with unique ids, the primary-key lookup of a position's id finds that very row |
| OrganizationService.FindDivisionUnique | app/services/organization_service.py:127-129 | with unique ids, the primary-key lookup of a division's id finds that very row |
| OrganizationService.GetDepartments | app/services/organization_service.py:24-56 | a department is listed exactly when the department access check admits it and it is active, or inactive ones are asked for |
| OrganizationService.GetDivisions | app/services/organization_service.py:67-110 | every listed division passes the activity and department filters; org-scoped and unscoped users get every such division; any other user gets exactly those whose department or itself is scoped, and may open each one's department |
| OrganizationService.GetPositions | app/services/organization_service.py:135-180 | every listed position passes the activity and placement filters; org-scoped and unscoped users get every such position; any other user gets exactly those whose division or its department is scoped |
| OrganizationService.GetTotalAuthorizedCount | app/services/organization_service.py:205-228 | the sum is 0 when no active position matches the filter, and never negative when no headcount is |
| OrganizationService.DepartmentListAgreesWithAccess | app/services/organization_service.py:24-56 | an active department is in the user's department list exactly when the department access check admits it |
| OrganizationService.OrgScopeSeesAll | app/services/organization_service.py:262-296 | an org-scoped user may open every department and every position and lists every department |
| OrganizationService.UnscopedSeesNoDepartment | app/services/organization_service.py:41-56 | a user with no scope rows lists no department at all |
| OrganizationService.UnscopedListsEverythingButOpensNothing | app/services/organization_service.py:92-180 | for a user with no scopes the division and position lists apply no scope filter, yet no department or position can be opened |
| OrganizationService.ScopedDivisionList | app/services/organization_service.py:92-110 | for a scoped, non-org user a division is listed exactly when its department or itself is scoped, and its department is then accessible |
| OrganizationService.PositionListAgreesWithAccess | app/services/organization_service.py:166-180 | for a user with some scope, an active position is listed exactly when the position access check admits it |
| OrganizationService.TotalAuthorizedMatchesPositionList | app/services/organization_service.py:205-228 | the authorized-count aggregate is the sum over the active positions an org-scoped user lists for the same filter, and 0 when none match |
| Decorators.RoleRequired | app/decorators.py:44-67 | 401 exactly when not signed in; a signed-in user without a role crashes the decorator; otherwise the view runs exactly when the role's name is listed and is refused with 403 exactly when it is not |
| Decorators.RoleRequiredMatchesHasRole | app/decorators.py:48-63 | for a signed-in user with a role the decorator admits exactly those `has_role` accepts; a user without a role is never admitted, even when "unknown" is listed |
| Decorators.PermissionRequired | app/decorators.py:85-105 | never crashes; 401 exactly when not signed in; the view runs exactly when the user has a role granting the permission |
| Decorators.ScopeCheck | app/decorators.py:127-168 | 401 when not signed in, 400 exactly when the id argument is missing, org-scoped users pass; otherwise departments and positions pass exactly when their access checks do and every other entity type is refused |
| CostService.TenantShareAllocates | app/services/cost_service.py:324-344 | the share is 0 when the product has no (or a zero) total cost or no covered heads; otherwise share times covered headcount gives back the total cost |
| CostService.ShareOfHeadcount | app/services/cost_service.py:335-344 | a priced product over a known nonzero headcount costs its price divided by that headcount per head |
| CostService.HardwareLines | app/services/cost_service.py:170-190 | one line per hardware requirement row, each with position total = line total × authorized count |
| CostService.SoftwareLines | app/services/cost_service.py:193-218 | one line per software requirement row, each with position total = line total × authorized count |
| CostService.PositionSummaries | app/services/cost_service.py:259-260 | one position summary per position of the loop |
| CostService.DivisionSummaries | app/services/cost_service.py:304-305 | one division breakdown per division of the loop |
| CostService.DepartmentSummaries | app/services/cost_service.py:291-314 | one department summary per listed department |
| CostService.FirstActivePosition | app/services/cost_service.py:395-397 | an active position with that id if there is one; None exactly when no active row has the id |
| CostService.CoveredHeadcount | app/services/cost_service.py:347-410 | the coverage loop returns the covered headcount: the authorized counts summed over the union of the positions the product's coverage rows reach, 0 without rows |
| CostService.CoverDepartment | app/services/cost_service.py:375-384 | a department row adds exactly the active positions of the department's active divisions |
| CostService.CoverPosition | app/services/cost_service.py:393-399 | a position row adds the id exactly when an active position has it |
| CostService.CalculateTenantShare | app/services/cost_service.py:324-344 | the method computes the tenant share (see TenantShareAllocates) |
| CostService.HardwareLinesStep | app/services/cost_service.py:171-190 | one more hardware row appends its line and adds its line total and position total to the two running sums |
| CostService.SoftwareLinesStep | app/services/cost_service.py:194-218 | one more software row appends its line and adds its line total and position total to the two running sums |
| CostService.PriceHardware | app/services/cost_service.py:170-190 | the hardware loop yields the hardware lines of the rows, the per-person total is the sum of their line totals and the position total the sum of their position totals |
| CostService.PriceHardwareLine | app/services/cost_service.py:172-176 | a hardware line is quantity × estimated cost (0 when unset), and that × the authorized count |
| CostService.PriceSoftware | app/services/cost_service.py:193-218 | the software loop yields the software lines of the rows with the two running totals as their sums |
| CostService.PriceSoftwareLine | app/services/cost_service.py:195-204 | a software line is priced per licence or by tenant share as SoftwareLinePrice states |
| CostService.CalculatePositionCost | app/services/cost_service.py:134-226 | the result is PositionNotFound for an unknown id and otherwise the position's summary (see PositionCostOutcome, PositionTotalsScale) |
| CostService.PricePosition | app/services/cost_service.py:168-224 | the two requirement loops produce the summary of the position's hardware and software lines |
| CostService.RequirementsPriced | app/services/cost_service.py:170-195 | every requirement row of a position names an existing hardware item or product |
| CostService.PositionFound | app/services/cost_service.py:150-152 | a position of the table is what the lookup by its id finds, so its cost is its summary |
| CostService.DivisionFound | app/services/cost_service.py:244-246 | a division of the table is what the lookup by its id finds, so its breakdown is its summary |
| CostService.GetDivisionCostBreakdown | app/services/cost_service.py:234-265 | the result is DivisionNotFound for an unknown id and otherwise the division's summary |
| CostService.SummarizeDivision | app/services/cost_service.py:248-264 | the summary of an existing division: its active positions, their headcount and the summed totals |
| CostService.AddUpPositions | app/services/cost_service.py:259-262 | the division loop's hardware and software totals are the sums of the positions' totals |
| CostService.AddPosition | app/services/cost_service.py:260-262 | one turn of the division loop adds one position's totals to the running sums |
| CostService.PositionSummariesStep | app/services/cost_service.py:259-260 | the summaries of one more position are the previous ones plus that position's summary |
| CostService.DivisionSummariesStep | app/services/cost_service.py:304-305 | the breakdowns of one more division are the previous ones plus that division's breakdown |
| CostService.GetDepartmentCostBreakdown | app/services/cost_service.py:273-316 | one summary per department of the user's active department list, in that order |
| CostService.SummarizeDepartment | app/services/cost_service.py:292-313 | a department's summary: its active divisions and the sums of their breakdowns |
| CostService.AddUpDivisions | app/services/cost_service.py:304-309 | the department loop's four running totals are the sums of the divisions' figures |
| CostService.BreakdownOf | app/services/cost_service.py:305 | the breakdown the department loop reads for one division is that division's summary |
| CostService.AddDivision | app/services/cost_service.py:306-309 | one turn of the department loop adds one division's four figures to the running sums |
| CostService.PositionCost | app/services/cost_service.py:150-165 | fails with PositionNotFound exactly when no position has the id; otherwise it is the summary of the position with that id |
| CostService.PositionCostOutcome | app/services/cost_service.py:150-165 | the position cost fails exactly when no position has the id; otherwise the summary carries that id and the position's authorized count |
| CostService.HardwareLinesAt | app/services/cost_service.py:171-188 | line k of the hardware loop is the line of requirement row k |
| CostService.SoftwareLinesAt | app/services/cost_service.py:194-216 | line k of the software loop is the line of requirement row k |
| CostService.HardwareLineAt | app/services/cost_service.py:172-187 | a hardware line carries the item's id and the row's quantity; its unit cost is the estimated cost or 0; line total = quantity × unit cost; position total = line total × authorized count |
| CostService.SoftwareLinePrice | app/services/cost_service.py:195-216 | a per-user line costs quantity × licence price (0 when unset); a tenant line costs the allocated share whatever the quantity; position total = line total × authorized count |
| CostService.SummarizeScales | app/services/cost_service.py:189-224 | summing lines whose position totals are their line totals × headcount gives position totals = per-person totals × headcount, total per person = hardware + software per person, grand total = hardware + software |
| CostService.PositionTotalsScale | app/services/cost_service.py:176-224 | every position summary has grand total = hardware + software, total per person = both per-person figures, and grand total = total per person × authorized count |
| CostService.NoRequirementsCostNothing | app/services/cost_service.py:170-226 | a position without requirement rows has no lines, zero totals and its own authorized count |
| CostService.CoveredIdsMembers | app/services/cost_service.py:367-399 | a position id is covered exactly when some coverage row reaches it |
| CostService.PositionIdsUnderActive | app/services/cost_service.py:377-384 | the ids a department row adds are ids of active positions |
| CostService.RuleIdsActive | app/services/cost_service.py:369-399 | whatever its type, a coverage row reaches only active positions |
| CostService.OverlappingRowAddsNothing | app/services/cost_service.py:367-399 | a row reaching only positions already covered leaves the covered set unchanged, so no position counts twice |
| CostService.SumAuthorizedUnion | app/services/cost_service.py:401-410 | the headcount of a union counts shared positions once: sum(a ∪ b) + sum(a ∩ b) = sum(a) + sum(b) |
| CostService.SumAuthorizedInFilter | app/services/cost_service.py:405-410 | the headcount query sums the authorized counts of exactly the positions whose id is in the set |
| CostService.SameIdSamePosition | app/services/cost_service.py:405-408 | with unique ids two positions with the same id are the same row |
| CostService.OrganizationRowCoversAll | app/services/cost_service.py:370-373 | a product with an organization coverage row has as headcount the organisation's whole authorized total |
| CostService.PositionSummariesScaled | app/services/cost_service.py:259-262 | every position summary the division loop adds has the scaled shape |
| CostService.DivisionTotalIsSumOfPositions | app/services/cost_service.py:248-265 | a division's grand total is the sum of its active positions' grand totals, each per-person cost × headcount |
| CostService.DivisionHeadcountAgrees | app/services/cost_service.py:248-257 | a division's authorized total is the organisation service's aggregate for that division, and its position count the number of its active positions |
| CostService.DivisionCost | app/services/cost_service.py:234-253 | fails with DivisionNotFound exactly when no division has the id; otherwise it is the summary of the division with that id |
| CostService.DivisionCostOutcome | app/services/cost_service.py:244-253 | the division breakdown fails exactly when no division has the id, and otherwise carries that id |
| CostService.DivisionSummariesAdd | app/services/cost_service.py:264 | every division breakdown has grand total = hardware + software |
| CostService.DepartmentTotalIsSumOfDivisions | app/services/cost_service.py:291-313 | a department's grand total is the sum of its active divisions' grand totals |
| CostService.DepartmentSummariesAt | app/services/cost_service.py:291-314 | summary k belongs to department k of the list |
| CostService.BreakdownMatchesAccess | app/services/cost_service.py:288-316 | the breakdown holds a summary for each active department the user may open, and for no other |
| CostService.UnscopedUserGetsNoBreakdown | app/services/cost_service.py:288 | a user without scopes gets an empty breakdown |
| CostService.ZeroHeadcountCostsNothing | app/services/cost_service.py:176-224 | with authorized count 0 the position totals are 0 while the per-person figures remain |
| CostService.CombinedExample | tests/test_services/test_cost_service.py:151-176 | a 1200.00 laptop and a 200.00 licence for three people give 3600.00 + 600.00 = 4200.00, 1400.00 per person |
| CostService.TenantExample | app/services/cost_service.py:196-204 | a 9000.00 tenant product over 100 covered heads costs 90.00 per head, 1800.00 for a position of 20, whatever the quantity |
| CostService.TenantShareExample | app/services/cost_service.py:335-344 | 9000.00 over 100 covered heads is 90.00 per head |
| CostService.TenantHeadcountExample | app/services/cost_service.py:362-410 | an organization row over positions of 10, 20 and 70 covers 100 heads |
| CostHistory.OpenIndex | app/services/equipment_service.py:206-212 | the open-row query finds the item's first open row, and finds none exactly when the item has no open row |
| CostHistory.Closed | app/services/equipment_service.py:206-217 | closing changes only the end date of the item's open row, to `now`; without an open row nothing changes; with at most one open row per item the item has none left |
| CostHistory.Opened | app/services/equipment_service.py:71-80 | the first row of a new item (id one past the table) keeps at most one open row per item and every open row carrying its item's current cost, and tells the new item's cost |
| CostHistory.OpenedLeavesOthers | app/services/equipment_service.py:193-203 | recording the first row of a new item leaves every other item's current cost unchanged |
| CostHistory.Superseded | app/services/equipment_service.py:139-141 | a cost change (close, then record) keeps at most one open row per item and the rows in step with the new costs; the new row is in force from `now` on, the replaced row at no date from `now` on, other items untouched |
| CostHistory.ClosedKeepsOthers | app/services/equipment_service.py:206-217 | closing one item's row leaves every other item's open row and current cost as they were |
| EquipmentService.Lookup | app/services/equipment_service.py:772-775 | `kwargs[keyword]`: the (last) argument with that keyword, and None exactly when no argument has it |
| EquipmentService.TypeCosts | app/services/equipment_service.py:198-201 | the cost column of each hardware type, in table order |
| EquipmentService.HardwareCosts | app/services/equipment_service.py:399-402 | the cost column of each hardware item, in table order |
| EquipmentService.SoftwareCosts | app/services/equipment_service.py:850-854 | the two cost columns of each software product, in table order |
| EquipmentService.SoftwareCreated | app/services/equipment_service.py:716-730 | a new product numbered one past the table, with its first history row, keeps ids equal to row numbers, at most one open row per product and the rows in step with the costs; the new row tells the product's cost |
| EquipmentService.ApplyFieldProject | app/services/equipment_service.py:784-786 | one `setattr` changes the attribute it names and no other; id and update stamp stay |
| EquipmentService.AppliedFields | app/services/equipment_service.py:783-787 | after the keyword loop every attribute named has its last given value and every other attribute is unchanged; a keyword that is no attribute has no effect |
| EquipmentService.SoftwareCostChangeDetected | app/services/equipment_service.py:771-775 | the update's cost check holds exactly when applying the arguments really changes `cost_per_license` or `total_cost` |
| EquipmentService.ApplyKeywords | app/services/equipment_service.py:783-786 | the loop applies the keyword arguments in order, skipping keywords that are no attribute |
| EquipmentService.EditedType | app/services/equipment_service.py:126-137 | each field given replaces the old value, each None leaves it; the cost differs from the old one exactly when a different cost was given |
| EquipmentService.EditedHardware | app/services/equipment_service.py:326-337 | each field given replaces the old value, each None leaves it; the cost differs from the old one exactly when a cost was given that differs from the current one |
| EquipmentService.EquipmentCatalog.CreateHardwareType | app/services/equipment_service.py:53-96 | a name another type has, up to letter case, fails with DuplicateName and no change (the unique `type_name` column, app/models/equipment.py:28); otherwise appends the type with the next id and exactly one open history row with its cost; the invariant, distinct names included, is kept; nothing else changes |
| EquipmentService.EquipmentCatalog.UpdateHardwareType | app/services/equipment_service.py:99-158 | HardwareTypeNotFound with no change for an unknown id; a new name another type has, up to letter case, fails with DuplicateName and no change; otherwise the edited type replaces the old one and, exactly when the cost changed, the open row is closed and a new one recorded |
| EquipmentService.EquipmentCatalog.DeactivateHardwareType | app/services/equipment_service.py:161-187 | HardwareTypeNotFound with no change for an unknown id; otherwise only `is_active` (and the stamp) change, no history row |
| EquipmentService.EquipmentCatalog.StoreType | app/services/equipment_service.py:127-141 | writing back a type closes and re-records its history exactly when its cost differs; the invariant is kept |
| EquipmentService.EquipmentCatalog.RecordTypeHistory | app/services/equipment_service.py:193-203 | appends one open row with the type's cost |
| EquipmentService.EquipmentCatalog.CloseTypeHistory | app/services/equipment_service.py:206-212 | ends the type's open row at `now`, if it has one |
| EquipmentService.EquipmentCatalog.CreateHardware | app/services/equipment_service.py:247-295 | appends the item with the next id and exactly one open history row with its cost; nothing else changes |
| EquipmentService.EquipmentCatalog.UpdateHardware | app/services/equipment_service.py:297-359 | HardwareNotFound with no change for an unknown id; otherwise the edited item replaces the old one and a history row is closed and recorded exactly when a cost was given that differs |
| EquipmentService.EquipmentCatalog.DeactivateHardware | app/services/equipment_service.py:362-388 | HardwareNotFound with no change for an unknown id; otherwise only `is_active` (and the stamp) change |
| EquipmentService.EquipmentCatalog.StoreHardware | app/services/equipment_service.py:327-341 | writing back an item closes and re-records its history exactly when its cost differs; the invariant is kept |
| EquipmentService.EquipmentCatalog.RecordHardwareHistory | app/services/equipment_service.py:394-404 | appends one open row with the item's cost |
| EquipmentService.EquipmentCatalog.CloseHardwareHistory | app/services/equipment_service.py:407-413 | ends the item's open row at `now`, if it has one |
| EquipmentService.EquipmentCatalog.CreateSoftware | app/services/equipment_service.py:688-747 | a name another product has, up to letter case, fails with DuplicateName and no change (`UQ_software_name`, migrations/versions/f39d32785055_add_check_constraints_for_quick_wins.py:39-42); otherwise appends the product with the next id and exactly one open history row with both cost columns; nothing else changes |
| EquipmentService.EquipmentCatalog.UpdateSoftware | app/services/equipment_service.py:750-810 | SoftwareNotFound with no change for an unknown id; a resulting name another product has, up to letter case, fails with DuplicateName and no change; otherwise the arguments are applied and the open row is closed and a new one recorded exactly when a cost argument differs |
| EquipmentService.EquipmentCatalog.DeactivateSoftware | app/services/equipment_service.py:813-839 | SoftwareNotFound with no change for an unknown id; otherwise only `is_active` (and the stamp) change |
| EquipmentService.EquipmentCatalog.StoreSoftware | app/services/equipment_service.py:784-791 | writing back a product closes and re-records its history exactly when its costs differ; the invariant is kept |
| EquipmentService.EquipmentCatalog.RecordSoftwareHistory | app/services/equipment_service.py:845-856 | appends one open row with both cost columns |
| EquipmentService.EquipmentCatalog.CloseSoftwareHistory | app/services/equipment_service.py:859-865 | ends the product's open row at `now`, if it has one |
| RequirementService.FirstMissing | app/services/requirement_service.py:435-438 | None exactly when every selected hardware id exists; otherwise an id of a selection whose hardware does not exist |
| RequirementService.MissingAt | app/services/requirement_service.py:435-438 | the first selection whose hardware is missing decides the error, whatever follows it |
| RequirementService.GroupsMembers | app/services/requirement_service.py:434-439 | the groups of `items_by_type` are exactly the types of the selected hardware, each once |
| RequirementService.Limit | app/services/requirement_service.py:443-449 | a type restricts the selection only when it exists and its `max_selections` is neither None nor 0; a limit is then positive |
| RequirementService.FirstOverLimit | app/services/requirement_service.py:442-463 | the group reported is over its limit and every group before it is not; None exactly when no group is over its limit |
| RequirementService.FirstOverLimitAt | app/services/requirement_service.py:442-463 | the group a scan in dict order meets first over its limit is the one reported |
| RequirementService.GroupByType | app/services/requirement_service.py:434-439 | the grouping loop: fails with the first unknown hardware id; otherwise the groups in first-seen order, each holding exactly its type's selections in submission order |
| RequirementService.ValidateMaxSelections | app/services/requirement_service.py:412-463 | the corrected check: the empty list passes, an unknown id fails, otherwise the first group whose total quantity exceeds its own limit fails |
| RequirementService.CheckGroups | app/services/requirement_service.py:442-463 | each group compared with its own limit, in dict order: fails with the first group over its limit, else succeeds |
| RequirementService.MaxSelectionsCheckRejectsOverLimit | app/services/requirement_service.py:412-463 | the corrected check fails on a known selection iff some limited type's total quantity exceeds its limit, and then with a max-selections error |
| RequirementService.LastBinding | app/services/requirement_service.py:450-451 | the inner loop leaves the loop variables bound to the LAST group of `items_by_type` (to the outer group when there is none) |
| RequirementService.ValidateMaxSelectionsAsWritten | app/services/requirement_service.py:412-463 | the check as written: only the last group is compared, and only once some group has a limit |
| RequirementService.CheckGroupsAsWritten | app/services/requirement_service.py:442-463 | the nested loop as written fails exactly when some group has a limit and the last group is over the last group's limit |
| RequirementService.MaxSelectionsAsWrittenRejectsOnlyOverLimit | app/services/requirement_service.py:442-463 | the check as written still never rejects a selection in which no limited type is exceeded |
| RequirementService.OnlyLastGroupChecked | app/services/requirement_service.py:450-458 | two laptops against a laptop limit of 1, followed by an unlimited mouse, pass the check as written and fail the corrected one |
| RequirementService.UsageCounts | app/services/requirement_service.py:726-745 | the keys are exactly the items some row names, and every count is at least 1 |
| RequirementService.UsageCountIsRowCount | app/services/requirement_service.py:748-767 | with one row per (position, item) pair, "used by N positions" is the number of the item's rows |
| RequirementService.Trunc | app/services/requirement_service.py:884 | Python's `int()` on a float truncates toward zero: the result lies within 1 of the value, on the side of zero |
| RequirementService.MinPositions | app/services/requirement_service.py:884 | `max(1, int(count * threshold))` is at least 1 |
| RequirementService.MinPositionsMonotone | app/services/requirement_service.py:884 | a higher threshold never asks for fewer positions |
| RequirementService.DivisionCommonItems | app/services/requirement_service.py:855-905 | no configured position gives the empty set; every item returned is named by a requirement of a position in the division |
| RequirementService.DivisionCommonIff | app/services/requirement_service.py:867-905 | an item is common iff at least `max(1, int(count * threshold))` of the division's configured positions use it |
| RequirementService.DivisionCommonMonotone | app/services/requirement_service.py:855-905 | raising the threshold never adds an item |
| RequirementService.DivisionCommonExtremes | app/services/requirement_service.py:855-905 | at threshold 1.0 an item is common iff every configured position uses it; at 0.0 iff any position of the division uses it |
| RequirementService.RowsOf | app/services/requirement_service.py:42-48 | `get_*_requirements`: exactly the table's rows of that position |
| RequirementService.RowsNotOf | app/services/requirement_service.py:508-510 | the table after the bulk delete: exactly the rows of other positions |
| RequirementService.Select | app/services/requirement_service.py:508-510 | exactly the rows whose position is (or is not) the given one |
| RequirementService.AsItems | app/services/requirement_service.py:674-684 | the selections `copy_position_requirements` builds: one per row, with its item, quantity and notes |
| RequirementService.NewRows | app/services/requirement_service.py:517-535 | one row per selection for the position, with consecutive new ids, and the selection's item, quantity and notes |
| RequirementService.RemovedEntries | app/services/requirement_service.py:496-505 | one REMOVED history entry per existing row, with that row's item and quantity |
| RequirementService.AddedEntries | app/services/requirement_service.py:525-532 | one ADDED history entry per selection, with its item and quantity |
| RequirementService.FindPair | app/services/requirement_service.py:74-77 | the index of a row holding the (position, item) pair; None exactly when no row holds it |
| RequirementService.FindRow | app/services/requirement_service.py:148-150 | the index of the row with that primary key; None exactly when there is none |
| RequirementService.PairQuantityAt | app/services/requirement_service.py:74-77 | under unique pairs, the quantity of a row's pair is that row's quantity |
| RequirementService.PairQuantityIff | app/services/requirement_service.py:74-77 | under unique pairs, a pair has no quantity iff no row holds it, and otherwise the quantity of the row that does |
| RequirementService.Updated | app/services/requirement_service.py:155-159 | the table keeps its length |
| RequirementService.UpdatedSpec | app/services/requirement_service.py:152-159 | the update keeps the table well formed, gives the row's pair the new quantity (the old one when None) and leaves every other pair as it was |
| RequirementService.UpsertedSpec | app/services/requirement_service.py:74-95 | the add keeps the table well formed (a new id only when the pair was new), sets the pair's quantity and leaves every other pair alone |
| RequirementService.Deleted | app/services/requirement_service.py:225 | the table loses one row |
| RequirementService.DeletedSpec | app/services/requirement_service.py:198-226 | the hard delete keeps the table well formed, removes the row's pair and leaves every other pair's quantity as it was |
| RequirementService.RowsOfNotOf | app/services/requirement_service.py:508-510 | after the bulk delete the position has no rows, and every other position keeps its own |
| RequirementService.RowsOfNew | app/services/requirement_service.py:517-535 | every inserted row belongs to the position |
| RequirementService.RowItemsAcceptable | app/services/requirement_service.py:674-684 | a position's own rows, submitted again, are acceptable: no item twice and every quantity at least 1 |
| RequirementService.AppendNewWellFormed | app/services/requirement_service.py:512-535 | inserting acceptable selections for a position with no rows left keeps ids increasing and pairs unique |
| RequirementService.ReplacedSpec | app/services/requirement_service.py:466-554 | the replacement keeps the table well formed, gives the position exactly the submitted selections in order and leaves every other position's rows as they were |
| RequirementService.ReplacedRows | app/services/requirement_service.py:466-554 | a position's rows after the replacement: the new rows for the target, the old rows for any other |
| RequirementService.RequirementStore.Record | app/services/requirement_service.py:958-980 | `_record_requirement_history`: one history entry appended, the tables unchanged |
| RequirementService.RequirementStore.AddRequirement | app/services/requirement_service.py:51-127 | a quantity below 1 is refused with nothing changed; otherwise the pair gets the quantity (an existing pair is updated, not duplicated), every other pair is kept, and one ADDED or MODIFIED entry is recorded |
| RequirementService.RequirementStore.UpdateRequirement | app/services/requirement_service.py:130-181 | an unknown id fails with nothing changed; otherwise None keeps the old quantity or notes, the row's pair gets the resulting quantity and one MODIFIED entry records it |
| RequirementService.RequirementStore.RemoveRequirement | app/services/requirement_service.py:184-228 | an unknown id fails with nothing changed; otherwise the row is deleted, its pair has no quantity, and one REMOVED entry carries the row's quantity |
| RequirementService.RequirementStore.SetPositionRequirements | app/services/requirement_service.py:466-639 | hardware is validated first with the corrected `max_selections` check (every type against its own limit, see "## Findings"), and a refusal changes nothing; otherwise the position's rows become exactly the selections, other positions are untouched, and the history gains a REMOVED entry per old row then an ADDED entry per selection |
| RequirementService.RequirementStore.RemoveAll | app/services/requirement_service.py:494-514 | a REMOVED entry per existing row, then the position's rows deleted |
| RequirementService.RequirementStore.InsertAll | app/services/requirement_service.py:516-535 | one new row and one ADDED entry per selection, in order, ids allocated consecutively |
| RequirementService.RequirementStore.CopyPositionRequirements | app/services/requirement_service.py:642-722 | a source with no rows fails; otherwise the source's hardware goes through the same corrected `max_selections` check as the bulk set, and the target's hardware and software become the source's selections while every other position keeps its rows; both tables are the two replacements, both next ids advance by the rows copied, and the history gains the target's REMOVED and ADDED entries, hardware first, then software |
| RequirementService.RequirementStore.UpdateRequirementsStatus | app/services/requirement_service.py:775-834 | a status outside {None, draft, submitted, reviewed} or an unknown position fails with nothing changed; otherwise the position's status is set and nothing else changes |
| RequirementService.RequirementStore.RequirementsStatus | app/services/requirement_service.py:837-848 | a status is returned only for a known position, and it is that position's status |
| RequirementForms.SelectedId | app/blueprints/requirements/routes.py:413-419 | an id is read only from a key that starts with the prefix and ends with `_selected`; a rest that is not an integer is skipped |
| RequirementForms.Quantity | app/blueprints/requirements/routes.py:421-427 | the quantity is at least 1: a non-integer gives 1, an integer of at least 1 is kept, a smaller one is raised to 1 |
| RequirementForms.Notes | app/blueprints/requirements/routes.py:422 | no notes exactly when the text is blank; otherwise the text without surrounding whitespace |
| RequirementForms.NotesCanonical | app/blueprints/requirements/routes.py:422 | parsed notes are canonical, and canonical notes parse back to themselves |
| RequirementForms.ItemFor | app/blueprints/requirements/routes.py:421-435 | the item of a selected id carries that id, a quantity of at least 1 and canonical notes |
| RequirementForms.MissingFieldsDefault | app/blueprints/requirements/routes.py:421-422 | a selected id without quantity or notes fields gives quantity 1 and no notes |
| RequirementForms.ItemsParsed | app/blueprints/requirements/routes.py:412-438 | no more items than form keys |
| RequirementForms.ItemsParsedCount | app/blueprints/requirements/routes.py:412-438 | exactly one item per selected key |
| RequirementForms.ItemKey | app/blueprints/requirements/routes.py:412-438 | every parsed item comes from a selected key of the form and is that key's item |
| RequirementForms.ItemsParsedSound | app/blueprints/requirements/routes.py:412-438 | every parsed item has a quantity of at least 1, canonical notes and a `<prefix><id>_selected` key in the form |
| RequirementForms.ItemsParsedComplete | app/blueprints/requirements/routes.py:412-438 | every selected key contributes its item |
| RequirementForms.ParseItems | app/blueprints/requirements/routes.py:412-438 | the parse loop returns the item of every selected key, in key order |
| RequirementForms.ParseHardwareForm | app/blueprints/requirements/routes.py:400-438 | `_parse_hardware_form`: the items of the `hw_` checkboxes, in key order |
| RequirementForms.ParseSoftwareForm | app/blueprints/requirements/routes.py:441-476 | `_parse_software_form`: the items of the `sw_` checkboxes, in key order |
| RequirementForms.NoPrefixInTail | app/blueprints/requirements/routes.py:415 | the replace of the prefix cannot eat into the text of `str(id)` + `_selected` |
| RequirementForms.SelectedKeyParses | app/blueprints/requirements/routes.py:413-419 | the checkbox key `<prefix><id>_selected` of any id, negative ones included, parses back to that id |
| RequirementForms.ItemRoundTrip | app/blueprints/requirements/routes.py:413-435 | posting a canonical item's three fields and parsing its checkbox gives the item back |
| RequirementForms.KeysSelected | app/blueprints/requirements/routes.py:414 | every checkbox key of an item is one the parser selects |
| RequirementForms.FormRoundTrip | app/blueprints/requirements/routes.py:412-476 | a form whose keys are the checkboxes of canonical items, each key once as a submitted form yields it, with each item posted, parses to exactly those items, in order |
| HrSync.FirstWith | app/services/hr_sync_service.py:172 | `filter_by(code).first()`: the first row with the code, and None exactly when no row has it |
| HrSync.FirstWithSameCodes | app/services/hr_sync_service.py:172 | tables with the same codes row by row answer every code lookup alike |
| HrSync.ReplaceRow | app/services/hr_sync_service.py:185-190 | updating a row in place keeps codes unique and the lookup of its code where it was |
| HrSync.AppendRow | app/services/hr_sync_service.py:174-181 | inserting a row with a new code keeps codes unique, and the new row is the one its code finds |
| HrSync.Retired | app/services/hr_sync_service.py:201-207 | deactivation keeps the table's length |
| HrSync.RetireStale | app/services/hr_sync_service.py:201-207 | the deactivation loop: every active row whose code was not reported is deactivated, and the counter is the number of such rows |
| HrSync.RetiredRule | app/services/hr_sync_service.py:201-207 | every stale row is deactivated, codes are kept, no row with an unreported code stays active and reported rows are untouched |
| HrSync.NothingStale | app/services/hr_sync_service.py:201-207 | with no stale row the deactivation changes and counts nothing |
| HrSync.RetiredKeeps | app/services/hr_sync_service.py:201-207 | deactivation keeps ids, unique codes and the lookup of every reported code |
| HrSync.DepartmentStep | app/services/hr_sync_service.py:166-191 | a new code is inserted with the reported name (the code when absent); an existing row is updated and reactivated only when its name differs or it is inactive; other rows are untouched, and the record is settled afterwards |
| HrSync.DepartmentsSynced | app/services/hr_sync_service.py:166-195 | every record is counted as processed; created is the number of new rows, and created + updated never exceeds the records; ids and unique codes are kept |
| HrSync.DepartmentsSyncedFrame | app/services/hr_sync_service.py:166-191 | existing rows keep id and code, and a row whose code no record reports is untouched |
| HrSync.DepartmentStepKeeps | app/services/hr_sync_service.py:172-191 | processing one record leaves the row of every other code, and its settled state, as it was |
| HrSync.DepartmentStepReflects | app/services/hr_sync_service.py:166-191 | one more iteration keeps the table reflecting all records so far |
| HrSync.DepartmentsSyncedReflect | app/services/hr_sync_service.py:166-191 | after the loop every reported code has an active row, named by the code's last record |
| HrSync.DepartmentSync | app/services/hr_sync_service.py:148-217 | `_sync_departments`: processed is the number of records and errors is 0; ids and unique codes are kept |
| HrSync.DepartmentSyncReflects | app/services/hr_sync_service.py:148-217 | after `_sync_departments` every reported code has an active row, named by the code's last record |
| HrSync.DepartmentRetiredReflects | app/services/hr_sync_service.py:201-207 | deactivating the unreported departments keeps every reported code present and settled |
| HrSync.DepartmentSyncDeactivates | app/services/hr_sync_service.py:197-213 | an empty response changes and counts nothing; otherwise every active unreported department is deactivated and every active department afterwards was reported |
| HrSync.DepartmentsSyncedSettled | app/services/hr_sync_service.py:166-191 | records already settled go through the loop unchanged, counted as processed only |
| HrSync.DepartmentSyncIdempotent | app/services/hr_sync_service.py:148-217 | re-running `_sync_departments` on the same records (each code once) creates, updates and deactivates nothing |
| HrSync.DivisionStep | app/services/hr_sync_service.py:240-286 | an unknown parent department is an error that changes nothing; a new code is inserted under the parent; an existing row is updated only when its name, parent or active flag differs; other rows are untouched |
| HrSync.DivisionsSynced | app/services/hr_sync_service.py:240-290 | processed is the number of records, errors the records with an unknown parent, created the new rows; created + updated + errors never exceeds the records |
| HrSync.DivisionsSyncedFrame | app/services/hr_sync_service.py:240-286 | existing rows keep id and code, and a row whose code no record reports is untouched |
| HrSync.DivisionSync | app/services/hr_sync_service.py:220-308 | `_sync_divisions`: processed and errors as in the loop; ids and unique codes are kept |
| HrSync.DivisionSyncDeactivates | app/services/hr_sync_service.py:292-305 | an empty response changes nothing; otherwise every active unreported division is deactivated, even when its own record could not be resolved |
| HrSync.PositionStep | app/services/hr_sync_service.py:331-383 | an unknown parent division is an error that changes nothing; otherwise a new code is inserted and an existing row updated only when a field differs; other rows are untouched |
| HrSync.PositionsSynced | app/services/hr_sync_service.py:331-387 | processed is the number of records, errors the records with an unknown division, created the new rows |
| HrSync.PositionsSyncedFrame | app/services/hr_sync_service.py:331-383 | existing rows keep id and code, and a row whose code no record reports is untouched |
| HrSync.PositionSync | app/services/hr_sync_service.py:311-405 | `_sync_positions`: processed and errors as in the loop; ids and unique codes are kept |
| HrSync.PositionSyncDeactivates | app/services/hr_sync_service.py:389-402 | an empty response changes nothing; otherwise every active unreported position is deactivated |
| HrSync.EmployeeStep | app/services/hr_sync_service.py:442-502 | an unknown position is an error that changes nothing; a new code is inserted; an existing row is updated only when a name, the position or the active flag differs; other rows are untouched |
| HrSync.EmployeeEmailAloneIgnored | app/services/hr_sync_service.py:481-489 | a record differing from the row only in its email leaves the row, email included, unchanged |
| HrSync.EmployeesSynced | app/services/hr_sync_service.py:442-506 | processed is the number of records, errors the records with an unknown position, created the new rows |
| HrSync.EmployeesSyncedFrame | app/services/hr_sync_service.py:442-502 | existing rows keep id and code, and a row whose code no record reports is untouched |
| HrSync.EmployeeSync | app/services/hr_sync_service.py:408-520 | `_sync_employees`: processed and errors as in the loop; ids and unique codes are kept |
| HrSync.EmployeeSyncDeactivates | app/services/hr_sync_service.py:429-517 | an empty list returns at once with zero counters; otherwise every active unreported employee is deactivated |
| HrSync.EmailIndex | app/services/hr_sync_service.py:581-586 | the map from lower-cased email to the last active user with it, exactly |
| HrSync.EmailIndexedSnoc | app/services/hr_sync_service.py:581-586 | one more user keeps the map exact once its email is entered (when active) |
| HrSync.ProvisionEmployee | app/services/hr_sync_service.py:591-716 | one employee, case by case: skipped with the table unchanged when already linked, without email or without a position chain; when its lower-cased email is indexed, that user is linked (division scope only if it had no scope) when it has no employee, otherwise skipped; else, when an inactive user already has the stripped email up to letter case, the creation fails the run with the table unchanged, and otherwise exactly one new read-only user row is appended. The provisioning invariant and every existing link are kept, and a provisionable employee ends linked unless its email belongs to an active user linked elsewhere |
| HrSync.SettledKept | app/services/hr_sync_service.py:591-650 | an employee that is linked, or blocked by an active user linked elsewhere, stays so while later employees are provisioned |
| HrSync.CollisionWitness | app/services/hr_sync_service.py:654-666 | an email that no active user has but some row has belongs to a user that was inactive before the run, which is the row the unique constraint trips on |
| HrSync.NewRowsActive | app/services/hr_sync_service.py:654-663 | every user the run creates is active |
| HrSync.AddedProvisioned | app/services/hr_sync_service.py:654-699 | appending the new user of a provisionable, unlinked employee with a fresh email keeps the provisioning invariant |
| HrSync.AddedIndexed | app/services/hr_sync_service.py:696-699 | the email map learns the new user's lower-cased email at its row |
| HrSync.LinkUser | app/services/hr_sync_service.py:624-647 | the user gets the employee, plus a division scope when it had none; the employee joins the linked set |
| HrSync.AddUser | app/services/hr_sync_service.py:654-699 | a new user row for the employee's stripped email, read-only role and division scope; the employee joins the linked set and the email map |
| HrSync.ProvisionActive | app/services/hr_sync_service.py:589-716 | either the first employee whose new user repeats an inactive user's email, up to letter case, is reported, with the table unchanged, or the invariant holds, errors is 0, created counts the new rows, every active employee is counted once as created, linked or skipped, and every provisionable active employee ends linked unless its email belongs to an active user linked to another employee |
| HrSync.ProvisionStep | app/services/hr_sync_service.py:591-716 | one pass of the loop: the next employee, when active, is handled and counted once, every employee settled before stays settled, or the pass fails on that employee's colliding email |
| HrSync.ProvisionCounted | app/services/hr_sync_service.py:591-716 | one employee either fails on a colliding email or adds exactly one to created + linked + skipped, keeps errors, keeps created the number of new rows, and ends settled when provisionable |
| HrSync.LinkedGrows | app/services/hr_sync_service.py:573-578 | every employee linked before the run is still linked |
| HrSync.OrphansRetired | app/services/hr_sync_service.py:718-754 | no user is left active while linked to an inactive employee; every other user is untouched, each orphan only deactivated |
| HrSync.DeactivateOrphaned | app/services/hr_sync_service.py:718-754 | the closing loop deactivates exactly the orphaned users and counts them |
| HrSync.ProvisionedNumbered | app/services/hr_sync_service.py:654-666 | user ids stay the row numbers through provisioning and deactivation |
| HrSync.ProvisionedEmailsDistinct | app/services/hr_sync_service.py:696-699 | the run never makes two active users of one lower-cased email |
| HrSync.NewRowOrigin | app/services/hr_sync_service.py:654-663 | a user the run created links to an active employee with an email and a position chain |
| HrSync.ProvisionedAllLinked | app/services/hr_sync_service.py:591-616 | when every provisionable employee is already linked, the loop changes no user |
| HrSync.ProvisionedLinksEveryone | app/services/hr_sync_service.py:591-754 | after a completed run in which no employee's email belongs to a user linked elsewhere, every active employee with an email and a position chain is linked, also after the orphans are deactivated, so a second run changes no user |
| HrSync.MergeStats | app/services/hr_sync_service.py:868-874 | `_merge_stats`: zero counters plus every key of every input |
| HrSync.MergedAppend | app/services/hr_sync_service.py:868-874 | merging is additive over concatenation |
| HrSyncRun.DepartmentRows | app/services/hr_sync_service.py:148-217 | the department loop with its counters, then the deactivation, computes exactly `_sync_departments` |
| HrSyncRun.DivisionRows | app/services/hr_sync_service.py:220-308 | the division loop and deactivation compute exactly `_sync_divisions` |
| HrSyncRun.PositionRows | app/services/hr_sync_service.py:311-405 | the position loop and deactivation compute exactly `_sync_positions` |
| HrSyncRun.EmployeeRows | app/services/hr_sync_service.py:408-520 | the early return, employee loop and deactivation compute exactly `_sync_employees` |
| HrSyncRun.HrDatabase.SyncDepartments | app/services/hr_sync_service.py:148-217 | only the department table changes, to the result of `_sync_departments` |
| HrSyncRun.HrDatabase.SyncDivisions | app/services/hr_sync_service.py:220-308 | only the division table changes, parents resolved against the current departments |
| HrSyncRun.HrDatabase.SyncPositions | app/services/hr_sync_service.py:311-405 | only the position table changes, parents resolved against the current divisions |
| HrSyncRun.HrDatabase.SyncEmployees | app/services/hr_sync_service.py:408-520 | only the employee table changes, positions resolved against the current positions |
| HrSyncRun.UserRows | app/services/hr_sync_service.py:528-780 | `_provision_users` on the user table: without a `read_only` role nothing changes and all counters are zero; a colliding email reports the employee with the table unchanged; otherwise every provisionable employee is settled, orphaned users are deactivated and counted, errors is 0 and every active employee is counted once |
| HrSyncRun.HrDatabase.ProvisionUsers | app/services/hr_sync_service.py:528-780 | only the user table changes, as `UserRows` says: unchanged without a role or on a colliding email, otherwise provisioned and with its orphans deactivated |
| HrSyncRun.OrganizationRows | app/services/hr_sync_service.py:66-91 | the four syncs in dependency order, each resolving against the table the previous one produced; the total is their merged counters, `processed` the number of all records, and ids and unique codes are kept |
| HrSyncRun.HrDatabase.RunFullSync | app/services/hr_sync_service.py:44-140 | when provisioning fails, every table is as before the run and the failure names a provisionable employee whose email an inactive user has; otherwise the four tables are the syncs' results in dependency order, the totals are their merged counters with `processed` the number of all records, and provisioning settles every provisionable employee with errors 0 and every active employee counted once |
| HrSyncRun.MergedProcessed | app/services/hr_sync_service.py:91 | the merged `processed` counter of the four syncs is their sum |
| NeoGov.DepartmentsNormalized | app/services/neogov_client.py:518-535 | never more records than the raw departments |
| NeoGov.DepartmentsExcluded | app/services/neogov_client.py:520-533 | no department in the output has an excluded code, and each has a code and a name |
| NeoGov.DepartmentsKept | app/services/neogov_client.py:520-533 | every department whose code is not excluded is in the output, named after its code when it has no name |
| NeoGov.DivisionsNormalized | app/services/neogov_client.py:555-580 | never more records than the raw divisions |
| NeoGov.DivisionsExcluded | app/services/neogov_client.py:557-578 | no division in the output belongs to an excluded department |
| NeoGov.DivisionsKept | app/services/neogov_client.py:557-578 | every division of a non-excluded department is kept; one with no (or a null) department is kept under parent code "" unless "" itself is excluded |
| NeoGov.Truncate | app/services/neogov_client.py:627 | Python's `int()` on a float: within 1 of the value, on the side of zero |
| NeoGov.PositionsNormalized | app/services/neogov_client.py:611-639 | one record per raw position, in order, each with a head count, which is 1 when no FTE was given |
| NeoGov.EmailOf | app/services/neogov_client.py:683 | the work email when it is non-empty, the personal email otherwise |
| NeoGov.EmployeesNormalized | app/services/neogov_client.py:670-703 | never more records than the raw employees |
| NeoGov.EmployeesNumbered | app/services/neogov_client.py:688-701 | no employee in the output lacks an employee number, and each has an email key |
| NeoGov.EmployeesKept | app/services/neogov_client.py:672-701 | every employee with a number is in the output, with the work email when non-empty and the personal one otherwise |
| NeoGov.NeoGovClient.constructor | app/services/neogov_client.py:49-62 | the client holds the configured key and excluded department codes |
| NeoGov.NeoGovClient.TransformDepartments | app/services/neogov_client.py:501-535 | the loop computes exactly the normalized departments |
| NeoGov.NeoGovClient.TransformDivisions | app/services/neogov_client.py:537-580 | the loop computes exactly the normalized divisions |
| NeoGov.NeoGovClient.TransformPositions | app/services/neogov_client.py:582-639 | the loop computes exactly the normalized positions |
| NeoGov.NeoGovClient.TransformEmployees | app/services/neogov_client.py:641-703 | the loop computes exactly the normalized employees |
| NeoGov.NeoGovClient.FetchAllOrganizationData | app/services/neogov_client.py:88-153 | no API key gives four empty lists; otherwise each fetched list is transformed, never growing |
| Config.ExcludedDepartments | app/config.py:105-111 | never more codes than comma-separated pieces in the variable (default "ADMINISTRATION") |
| Config.ExcludedCanonical | app/config.py:105-111 | every excluded code is non-empty, has no surrounding whitespace and no comma |
| Config.ExcludedDefault | app/config.py:105-111 | without the variable only ADMINISTRATION is excluded |
| Config.ExcludedBlank | app/config.py:105-111 | a variable that is set but blank excludes nothing |
| Config.CanonicalKept | app/config.py:106-110 | canonical codes pass the strip-and-drop-blank filter unchanged |
| Config.CanonicalJoinParses | app/config.py:105-111 | the comma-joined text of canonical codes splits back into the codes, which are all kept |
| Config.ExcludedRoundTrip | app/config.py:105-111 | writing canonical codes comma-separated into the variable and reading the setting gives the codes back |
| Config.DevLoginEnabled | app/config.py:123-125 | production never enables dev login and testing always does; otherwise the lower-cased variable must be "true", defaulting to "false" in the base class and "true" in development |
| Config.DevLoginIgnoresCase | app/config.py:123-125 | a value and its lower-case form give the same setting |
| Config.MissingAzure | app/config.py:164-169 | exactly the required Entra ID keys whose value is missing or empty, in order |
| Config.MissingAzureNonEmpty | app/config.py:169-170 | credentials are reported missing iff one of the three keys is unset |
| Config.HardErrors | app/config.py:151-185 | no hard error exactly when the secret key is not the default, no Azure key is missing and the redirect URI is secure; at most one error per check |
| Config.HardErrorsParts | app/config.py:151-185 | the hard errors are those of the three checks together |
| Config.HardErrorsExplained | app/config.py:153-185 | each check's error is in the list iff that check fails: default secret key, a missing Entra ID key, a set redirect URI not starting with https:// |
| Config.HardErrorsOnly | app/config.py:151-185 | the list holds no error but those of the three checks |
| Config.HardErrorsCount | app/config.py:187-192 | all hard failures are reported together, one error per failing check |
| Config.ValidateProductionSecrets | app/config.py:134-211 | fails iff some hard check fails, with all their errors; otherwise at most two warnings, for a missing NeoGov key and for DEBUG logging, each exactly when its condition holds |
| Config.DefaultRedirectInsecure | app/config.py:91-93 | the default redirect URI is plain HTTP, which production refuses |
| Config.EmptyEnvironmentMissesAzure | app/config.py:164-169 | with an empty environment all three Entra ID keys are missing |
| Config.EmptyEnvironmentRejected | app/config.py:258-295 | production with an empty environment fails all three hard checks at once |
| UserService.UserIndex | app/services/user_service.py:148-150 | `get_user_by_id`: the position of the row with that id, None exactly when there is none |
| UserService.NumberedUserIndex | app/services/user_service.py:148-150 | with autoincrement ids, id n is found exactly when 1 <= n <= the number of users, at position n - 1 |
| UserService.NewUserProperties | app/services/user_service.py:95-109 | a new user has the role's id and the given email, starts active and never logged in, has an organization scope iff its role is admin, it_staff or budget_executive, and a provisioning time (now) iff a non-zero provisioner is given |
| UserService.LoggedIn | app/services/user_service.py:306-315 | the last login is now; the first login time is set only when there was none; nothing else changes |
| UserService.FirstLoginKept | app/services/user_service.py:311-314 | over any series of logins the first login time stays that of the first one and the last login follows the latest |
| UserService.ScopeRows | app/services/user_service.py:264-273 | one scope row per dict, in order, with its type and optional ids; a dict without `scope_type` fails the whole list |
| UserService.ScopeRowsNone | app/services/user_service.py:265-268 | once a dict lacks its type the whole replacement fails |
| UserService.UserStore.ProvisionUser | app/services/user_service.py:62-126 | an unknown role fails with nothing created; an email or Entra ID already taken up to letter case is refused; otherwise exactly one new user is appended with the next id |
| UserService.UserStore.UpdateUserRole | app/services/user_service.py:129-176 | an unknown user, then an unknown role, fails with nothing changed; otherwise only that user's role changes |
| UserService.UserStore.DeactivateUser | app/services/user_service.py:179-199 | an unknown user fails; otherwise only that user's active flag changes, to false |
| UserService.UserStore.ReactivateUser | app/services/user_service.py:202-222 | an unknown user fails; otherwise only that user's active flag changes, to true |
| UserService.UserStore.SetUserScopes | app/services/user_service.py:228-286 | an unknown user or a dict without a type fails with nothing changed; otherwise that user's scopes become exactly the requested rows |
| UserService.UserStore.RecordLogin | app/services/user_service.py:306-315 | only that user changes, as a login at `now` |
| AdminScopes.CurrentScopeType | app/blueprints/admin/routes.py:359-382 | organization if any scope is one, else department, else division, else "none" (also for no scopes), each case both ways |
| AdminScopes.CurrentScopeTypeCombine | app/blueprints/admin/routes.py:367-382 | on combined scope lists the pre-selected type is the higher-ranked of the two lists' types: adding scopes never lowers it |
| AdminScopes.IntIds | app/blueprints/admin/routes.py:205 | `getlist(type=int)` never yields more ids than submitted values |
| AdminScopes.IntIdsExact | app/blueprints/admin/routes.py:205 | an id is returned iff some submitted value parses to it; the others are silently dropped |
| AdminScopes.IntIdsRoundTrip | app/blueprints/admin/routes.py:205 | checkboxes carrying the decimal text of ids give back exactly those ids, in order |
| AdminScopes.ScopeFor | app/blueprints/admin/routes.py:212-234 | a department id gives a department scope with that department; a division id a division scope with that division |
| AdminScopes.ScopeList | app/blueprints/admin/routes.py:198-234 | every list the route builds has a `scope_type` in each dict, so `set_user_scopes` never fails on one |
| AdminScopes.BuildScopes | app/blueprints/admin/routes.py:198-234 | the loops build exactly the route's scope list, or none when a department or division choice has no checked id |
| AdminScopes.ScopeListFixed | app/blueprints/admin/routes.py:198-202 | an organization choice (also the default) is one organization scope; a choice the form does not know clears the scopes |
| AdminScopes.ScopeListPerId | app/blueprints/admin/routes.py:203-234 | a department or division choice with no checked id redirects without a change; otherwise one scope per parsed id, in order |
| AdminScopes.ScopeTypeRoundTrip | app/blueprints/admin/routes.py:188-246 | the stored scopes make the edit form pre-select the type just chosen, or "none" for an unknown choice |
| AdminScopes.UpdateUserScopes | app/blueprints/admin/routes.py:188-246 | no checked id changes nothing; an unknown user is reported; otherwise the user's scopes become the built rows, which pre-select the chosen type |

Helpers that only compute a value for the members above, or carry a
step of their proofs, have no row of their own: among them
`AdminScopes.HasScopeTypeAppend`, `AdminScopes.Rank`,
`CostService.TenantRows`, `CostService.TenantIds`, `CostService.TenantSum`,
`HrSync.Tally`, `HrSync.StaleCount`, `HrSync.OrphanCount` and the
`HrSync` lemmas about single table edits (`LinksKeptRefl`,
`LinksKeptLink`, `LinksKeptAppend`, `IndexKept`, the `AddKeeps*` and
`LinkKeeps*` lemmas), and the name-table lemmas of the equipment
catalog (`EquipmentService.OwnNameFree`, `NameAppended`, `NameReplaced`,
and `HistoryStored`, `TypeStored`, `TypeReplaced`, `SoftwareStored`,
`SoftwareReplaced`, which carry one write-back of a row and its cost
history).
Their properties reach the table through the rows
that use them.

## Left out

- HTTP transport, pagination and the thread pool of the NeoGov client (`_make_request`, the `_fetch_*` helpers): they are network I/O and concurrency. The raw records are parameters of the transforms.
- Database session mechanics (`commit`, `flush`, `rollback`): atomicity belongs to the database. A failing operation is modelled as returning a failure with the tables unchanged.
- `run_full_sync`'s sync-log row: its persistence is not part of this model. Of the exception handler the model keeps the rollback of a failed provisioning: every table is as before the run and the run reports the failure. A failed fetch is not modelled, since the fetched data is a parameter.
- `audit_service.py` and every `log_change` and `logger` call: they are append-only persistence with request metadata, and no result depends on them.
- OAuth sign-in, sessions, the export service, templates, flash and redirect handling, the CLI and the seed scripts: they are a foreign library, presentation or bootstrap glue.
- Wall-clock time: `datetime.now` is a `now` parameter. The equipment rows (hardware types, hardware items, software products) carry `updated_at` and the catalog sets it. The organisation, user and requirement rows do not model their `updated_at` columns.
- Decimal arithmetic: money is exact `real`. Python's 28-significant-digit rounding of the tenant-share division is not modelled.
- CostService.CalculateTenantShare: the share is exact division, not the 28-digit Decimal quotient the source computes.
- NeoGov.Truncate: `authorizedFte` is an exact `real`, not a float, so binary rounding of the HR value before `int()` is not modelled.
- RequirementService.DivisionCommonItems: the float `threshold` is an exact `real`, so `int(count * threshold)` is exact truncation, not float arithmetic.
- Text.ParseInt: accepts ASCII digits, single underscores between digits, one optional sign and surrounding whitespace. Non-ASCII digits, which Python's `int()` also accepts, are rejected, and the whitespace it skips is the ASCII whitespace of `Text.IsSpace`.
- Text.Strip, Text.Lower: ASCII only. Python's `str.strip()` and `str.lower()` also act on Unicode whitespace and letters, so, for example, a note made only of U+00A0 is None in the source but is kept by the model. This affects the notes fields of the requirement forms, the excluded-department codes, and the lower-cased email match of user provisioning.
- List ordering: the services sort by name, title or date for display. The model keeps table order, and every property is stated about membership and counts.
- Foreign-key checks: a requirement row naming a missing position or item is not refused by the model as the database would refuse it.
- RequirementService.RequirementStore.SetPositionRequirements: every selection carries a quantity. The default of 1 that `item.get("quantity", 1)` gives a dict without that key is not modelled. The form parsers always supply the key.
- RequirementService.RequirementStore.SetPositionRequirements: validates with the corrected `max_selections` check, not the nested loop as written (see "## Findings"). Where a type other than the last one in `items_by_type` is over its limit and the last type is not, the source stores the selection and the model refuses it. Where both refuse, the model reports the first type over its limit and the source the last. The as-written check is `RequirementService.ValidateMaxSelectionsAsWritten`.
- RequirementService.RequirementStore.CopyPositionRequirements: copies hardware through the same corrected check, so it refuses the copies that the bulk set above refuses and the source accepts.
- NeoGov raw records: a JSON null value is read as an absent key. For `dept.get("code", "")`, `dept.get("name", code)`, the division `code`/`name`, the department object's `code`, `pos.get("code", "")`, `pos.get("status", "")`, `details.get("positionTitle", "")`, the division object's `code`, and the employee's `EmployeeNumber`, `FirstName`, `LastName` and `PositionCode`, the source yields None for a present null and the default only for an absent key. The model yields the default in both cases.
- Employee and user columns: the HR sync filters employees by `employee_code` and reads `User.employee_id`. The model assumes those columns, as the service uses them. The ORM classes shown declare `neogov_employee_id` on employees and no `employee_id` on users.
- `cost_service.calculate_organization_costs` is called by the reports blueprint but defined nowhere in the source. It is not part of this model.
- Hardware items and their cost history are imported by the equipment service, but their model classes are not in the source. They are modelled on the pattern of hardware types and their history rows.
- Stats `errors` of the HR syncs: the model counts the unresolved-parent records. The per-record exception handlers of the entity syncs (database errors mid-loop) are not modelled, so no other record adds to `errors`.
- HrSync.ProvisionEmployee: the one database error the provisioning loop can meet from its own data, a new user whose stripped email an inactive user already has up to letter case, is modelled as failing the whole run. The source's per-employee handler counts it in `errors` and goes on, but the failed flush leaves the session unusable, so the commit of `run_full_sync` raises and its handler rolls everything back. The model therefore never counts a provisioning error, and no other database error is modelled.
- CostService.GetDepartmentCostBreakdown: requires a user. Its docstring says that `user=None` returns every department, but the code passes it to `organization_service.get_departments`, which calls `user.has_org_scope()` unguarded and so fails on None.
- EquipmentService.WellFormedKwargs: keywords naming the key or a timestamp column (`id`, `created_at`, `updated_at`) are excluded. `hasattr` accepts them and `setattr` would overwrite them; the model keeps a row's id and sets `updated_at` itself.
- HrSync.FirstWith: the `filter_by` lookups by department, division, position or employee code, and by role name, compare exactly. The database is SQL Server, whose default collation compares case-insensitively, so a stored `HR` is also found by a reported `hr`. The model assumes that the HR system and the callers use the stored letter case. Where they do not, the source updates the stored row and then deactivates it, because the Python-side `not in api_codes` test compares exactly. HrSync.DepartmentSyncReflects and its division, position and employee counterparts do not cover that case.
- HrSync.EmailTaken, HrSync.Collides, UserService.Taken: the unique email and Entra object id constraints are modelled case-insensitively, as ASCII `Text.Lower` equality. The rest of SQL Server's collation is not modelled: trailing spaces are not ignored, and accented or other non-ASCII letters are not folded.
- HrSync.OrphansRetired: deactivates every active user linked to an inactive employee. For each such employee the source deactivates only the `.first()` of those users. The two differ only when the user table starts the run with two users linked to one employee, which the sync itself never creates.
- OrganizationService.GetPositions: with a `department_id` filter, a user who has department or division scopes but no org scope gets a query that joins `Division` twice without an alias (organization_service.py:164 and 172). Whether the database accepts that query is not modelled: the model returns the list the two filters describe.

## Findings

| source | as written | input that shows it | evidently intended | confidence | as-written member | corrected member |
|---|---|---|---|---|---|---|
| app/services/requirement_service.py:442-463 | the inner `for hw_type_id, type_items in items_by_type.items()` loop rebinds the outer loop's `hw_type` and `type_items` to the last group, so once any group has a limit only the LAST group is compared, against the LAST group's limit | two of a laptop whose type allows 1, followed by a mouse whose type has no limit: the laptop group is never compared and the selection is accepted | every hardware type's selected quantity is compared with that type's own `max_selections` | not executed | RequirementService.ValidateMaxSelectionsAsWritten, with the counterexample RequirementService.OnlyLastGroupChecked | RequirementService.ValidateMaxSelections, with RequirementService.MaxSelectionsCheckRejectsOverLimit |
