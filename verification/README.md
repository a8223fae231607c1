# hr-portal leave lifecycle and identity rules, in Dafny

This project models the core of hr-portal, a two-service HR system:

- **hrservice** (Spring Boot). It manages departments, leave types and leave requests. Employees apply for leave. A department's head (HOD) approves or rejects the applications of their department. Within one department, no two employees may hold approved or pending leave on the same day.
- **auth-service** (NestJS). It owns the users, their roles (`hr`, `hod`, `employee`) and their departments, and issues the JWTs. hrservice asks it, with the caller's own token, who the caller is and who works in a department.

The model is pure. Each table is an immutable sequence of rows (module `Tables`). Each operation is a function from the database state (and its other inputs) to a new state and a result. Exceptions are values: `Exceptions.Exception` on the Java side and `NestHttp.HttpException` on the Nest side. So are the HTTP statuses the exception handlers map them to.

The request pipeline is modelled stage by stage:

1. the JWT filter (`JwtFilter.DoFilter`);
2. bean validation of the request body (`*.ValidateBody`, `LeaveRequestController.ValidateApplication`), which Spring runs before the role aspect;
3. the role aspect (`Security.CheckRole`);
4. the service;
5. the exception handler (`Exceptions.Handle`).

Module `Gateway` models the identity service as hrservice's client sees it: three oracles that fail open. A transport failure becomes "no user", an empty list or null. Module `IdentityService` plugs the auth-service model into that client. The cross-service lemmas are stated there:

- which callers the leave overlap check can actually see;
- that a HOD's decisions keep approved leaves apart.

Inputs that are not state become parameters:

- clock readings (`now`, `today`, as day or instant numbers);
- the database's fresh ids (`newId`);
- the reachability of the identity service;
- bcrypt (`Users.Bcrypt`, uninterpreted hash and compare);
- the JWT service (`Auth.Jwt`, uninterpreted sign and verify).

Notes on the source:

- `auth.controller.ts` calls `authService.getUsersByDepartment` and `authService.getUserByEmployeeId`, but `auth.service.ts` defines neither. The model takes them to be `UsersService.findByDepartment` and `UsersService.findByEmployeeId`.
- `update-user.dto.ts`, `roles.guard.ts` and `role.enum.ts` are not part of this model. `UpdateUserDto` is taken to be `CreateUserDto` with every field optional. `RolesGuard` is taken to compare the payload's role with the listed roles exactly.

## Model

| member | source | states |
|---|---|---|
| Security.CheckRole | hrservice/src/main/java/com/hrservice/hrservice/security/RoleAuthorizationAspect.java:20-37 | An unauthenticated caller gets "Unauthorized". An authenticated caller passes iff some listed role, lower-cased, equals the caller's role lower-cased. Any refusal of an authenticated caller is "Forbidden: Insufficient permissions". |
| Security.GateVerdict | hrservice/src/main/java/com/hrservice/hrservice/security/RoleAuthorizationAspect.java:20-37 | For lower-case role lists, the gate passes iff the caller is authenticated and their folded role is listed. A refusal is answered 401 when unauthenticated and 403 otherwise. |
| Security.RoleMatchIgnoresCase | hrservice/src/main/java/com/hrservice/hrservice/security/RoleAuthorizationAspect.java:28-32 | A role that differs from a listed one only in letter case still passes. |
| Security.CheckRoleDependsOnlyOnRole | hrservice/src/main/java/com/hrservice/hrservice/security/RoleAuthorizationAspect.java:28-32 | Two authenticated callers with the same role get the same verdict, whatever their other attributes. |
| Security.EmptyRoleListForbidsEveryone | hrservice/src/main/java/com/hrservice/hrservice/security/RoleAuthorizationAspect.java:30-36 | An empty role list lets nobody through. |
| Exceptions.Handle | hrservice/src/main/java/com/hrservice/hrservice/exception/GlobalExceptionHandler.java:17-61 | 400 iff an illegal argument or a validation failure. 401 iff a security exception whose message contains "Unauthorized". 403 for other security exceptions and access denials. 500 for everything else. The body carries the message, or one entry per invalid field. |
| Exceptions.HandledStatuses | hrservice/src/main/java/com/hrservice/hrservice/exception/GlobalExceptionHandler.java:17-61 | Every exception is answered 400, 401, 403 or 500. |
| Exceptions.ServiceUnauthenticatedIsForbidden | hrservice/src/main/java/com/hrservice/hrservice/exception/GlobalExceptionHandler.java:24-36 | The service's "User not authenticated" does not contain "Unauthorized", so it is answered 403, not 401. |
| Exceptions.NullSecurityMessageIsForbidden | hrservice/src/main/java/com/hrservice/hrservice/exception/GlobalExceptionHandler.java:24-36 | A security exception without a message is answered 403, with a null error entry. |
| Http.StatusCode | hrservice/src/main/java/com/hrservice/hrservice/exception/GlobalExceptionHandler.java:17-61 | A failed call gets the handler's status. A successful one gets 200, 201, 204 or 404. |
| JwtFilter.BearerToken | hrservice/src/main/java/com/hrservice/hrservice/security/JwtAuthenticationFilter.java:43-47 | A token is extracted iff the header is present and starts with "Bearer ". The header is then exactly that prefix followed by the token. |
| JwtFilter.BearerRoundTrip | hrservice/src/main/java/com/hrservice/hrservice/security/JwtAuthenticationFilter.java:45-46 | Extracting from "Bearer " + t gives back t. |
| JwtFilter.LowercaseBearerIgnored | hrservice/src/main/java/com/hrservice/hrservice/security/JwtAuthenticationFilter.java:45 | A lower-case "bearer " scheme is not recognised. |
| JwtFilter.Authority | hrservice/src/main/java/com/hrservice/hrservice/security/JwtAuthenticationFilter.java:54 | The granted authority is "ROLE_" followed by the role upper-cased, letter by letter. |
| JwtFilter.DoFilter | hrservice/src/main/java/com/hrservice/hrservice/security/JwtAuthenticationFilter.java:28-65 | Public documentation paths pass untouched. Otherwise the bearer token is held during the chain and cleared afterwards. When the filter throws, no chain runs and no token is reported as held during it. The caller is authenticated iff the identity service returns a user with `isActive` true, and is then that user with the token as credentials. A user whose `isActive` is null crashes the filter. |
| JwtFilter.PublicPathIgnoresHeader | hrservice/src/main/java/com/hrservice/hrservice/security/JwtAuthenticationFilter.java:33-40 | On a public path the Authorization header makes no difference. |
| Gateway.ValidateToken | hrservice/src/main/java/com/hrservice/hrservice/service/AuthServiceClient.java:23-42 | A user comes back iff the call was delivered with `valid` true and a user. A failed call gives null. |
| Gateway.UsersByDepartment | hrservice/src/main/java/com/hrservice/hrservice/service/AuthServiceClient.java:44-60 | A failed call gives the empty list. Otherwise the list is the delivered body. |
| Gateway.UserByEmployeeId | hrservice/src/main/java/com/hrservice/hrservice/service/AuthServiceClient.java:62-78 | A failed call gives null. Otherwise the result is the delivered body. |
| Gateway.Client | hrservice/src/main/java/com/hrservice/hrservice/service/AuthServiceClient.java:23-78 | Each of the client's three operations is the corresponding fail-open decoding of its transport call. |
| Gateway.FailOpenWhenDown | hrservice/src/main/java/com/hrservice/hrservice/service/AuthServiceClient.java:39-41 | With the identity service unreachable: no token validates, every department is empty and no employee is found. |
| LeaveRequests.Draft | hrservice/src/main/java/com/hrservice/hrservice/entity/LeaveRequest.java:36-43 | A new leave request is pending, with no reviewer, rejection reason or timestamps. |
| LeaveRequests.OnCreate | hrservice/src/main/java/com/hrservice/hrservice/entity/LeaveRequest.java:52-56 | Persisting stamps both timestamps with the clock and changes nothing else. |
| LeaveRequests.OnUpdate | hrservice/src/main/java/com/hrservice/hrservice/entity/LeaveRequest.java:58-61 | Updating stamps `updatedAt`, keeps `createdAt` and changes nothing else. |
| LeaveRequests.CreationTimeSurvivesUpdates | hrservice/src/main/java/com/hrservice/hrservice/entity/LeaveRequest.java:52-61 | After a create and any updates, `createdAt` is the creation time and `updatedAt` the last update's. |
| LeaveRequests.FindByEmployeeId | hrservice/src/main/java/com/hrservice/hrservice/repository/LeaveRequestRepository.java:12 | Exactly the stored requests of the employee are returned. |
| LeaveRequests.FindByStatus | hrservice/src/main/java/com/hrservice/hrservice/repository/LeaveRequestRepository.java:15 | Exactly the stored requests with the status are returned. |
| LeaveRequests.FindOverlappingLeaves | hrservice/src/main/java/com/hrservice/hrservice/repository/LeaveRequestRepository.java:18-27 | Exactly the stored requests that are approved or pending, belong to a listed employee, are not the excluded id, and meet the closed date range. |
| LeaveRequests.ClosedIntervalTest | hrservice/src/main/java/com/hrservice/hrservice/repository/LeaveRequestRepository.java:21 | For well-ordered dates, the query's two comparisons hold iff the two leaves share a day. |
| LeaveRequests.OverlapIsSymmetric | hrservice/src/main/java/com/hrservice/hrservice/repository/LeaveRequestRepository.java:21 | The overlap test does not depend on which leave is the stored one. |
| LeaveRequests.TouchingEndsOverlap | hrservice/src/main/java/com/hrservice/hrservice/repository/LeaveRequestRepository.java:21 | A leave starting on the last day of another overlaps it: the ranges are inclusive. |
| LeaveRequests.EmptyEmployeeListFindsNothing | hrservice/src/main/java/com/hrservice/hrservice/repository/LeaveRequestRepository.java:18-27 | With no employee ids the query finds nothing. |
| LeaveRequests.ZeroExcludesNothing | hrservice/src/main/java/com/hrservice/hrservice/repository/LeaveRequestRepository.java:20 | Ids are positive, so the exclusion id 0 that `create` passes excludes no stored request. |
| LeaveRequests.OverlapQueryMeansSharedDay | hrservice/src/main/java/com/hrservice/hrservice/repository/LeaveRequestRepository.java:18-27 | The query is non-empty iff some approved or pending leave of a listed employee, other than the excluded one, shares a day with the range. |
| Departments.InitialHod | hrservice/src/main/java/com/hrservice/hrservice/service/DepartmentService.java:38-41 | On creation, a HOD is recorded iff one is given and non-empty. |
| Departments.Create | hrservice/src/main/java/com/hrservice/hrservice/service/DepartmentService.java:28-44 | A taken name is refused with "Department with name … already exists" and nothing stored. Otherwise a department with the given name, description and non-empty HOD is stored under a fresh id. Department names stay unique. |
| Departments.Update | hrservice/src/main/java/com/hrservice/hrservice/service/DepartmentService.java:46-67 | A missing id is refused as not found. Renaming to another department's name is refused with the name-exists message, and only then is an existing department refused. Otherwise each given field is replaced, omitted fields are kept, and other departments are untouched. Refusals change nothing. Names stay unique. |
| Departments.AssignHod | hrservice/src/main/java/com/hrservice/hrservice/service/DepartmentService.java:69-76 | A missing id is refused. Otherwise only that department's HOD changes, to the given value, null included. |
| Departments.Delete | hrservice/src/main/java/com/hrservice/hrservice/service/DepartmentService.java:78-84 | A missing id is refused. Otherwise that department is gone and the others are untouched. |
| Departments.KeepingTheNameIsAccepted | hrservice/src/main/java/com/hrservice/hrservice/service/DepartmentService.java:51-56 | Updating a department with its own name is not a name clash. |
| Departments.UpdateStoresEmptyHod | hrservice/src/main/java/com/hrservice/hrservice/service/DepartmentService.java:38-41 | Update stores an empty HOD id, which create would have dropped. |
| LeaveTypes.BindRequiresDocumentation | hrservice/src/main/java/com/hrservice/hrservice/dto/LeaveTypeDto.java:12 | An absent flag binds to false, an explicit null to null, and a given value to itself. |
| LeaveTypes.Create | hrservice/src/main/java/com/hrservice/hrservice/service/LeaveTypeService.java:27-40 | A taken name is refused and nothing is stored. Otherwise the leave type is stored under a fresh id, with a null documentation flag read as false. Names stay unique. |
| LeaveTypes.Update | hrservice/src/main/java/com/hrservice/hrservice/service/LeaveTypeService.java:42-67 | A missing id is refused as not found. A rename to a name another leave type holds is refused with the name-exists message, and only then is an existing row refused. Refusals change nothing. Otherwise each non-null field replaces the stored one and the rest are kept. The creation stamp is kept. The update stamp becomes the current time iff some column changed, as `@PreUpdate` fires only on a dirty row. Names stay unique. |
| LeaveTypes.UpdateStampsOnlyChanges | hrservice/src/main/java/com/hrservice/hrservice/entity/LeaveType.java:39-42 | A body that writes back the stored values returns the row as it was, stamp included, and leaves every row as it was. A successful update that changes a column stamps the current time. |
| LeaveTypes.Delete | hrservice/src/main/java/com/hrservice/hrservice/service/LeaveTypeService.java:69-75 | A missing id is refused. Otherwise only that leave type is removed. |
| LeaveTypes.OmittedFlagClearsDocumentation | hrservice/src/main/java/com/hrservice/hrservice/service/LeaveTypeService.java:62-64 | An update body that omits `requiresDocumentation` resets it to false. |
| LeaveTypes.NullFlagKeepsDocumentation | hrservice/src/main/java/com/hrservice/hrservice/service/LeaveTypeService.java:62-64 | An update body with an explicit null flag keeps the stored value. |
| DepartmentController.ValidateBody | hrservice/src/main/java/com/hrservice/hrservice/dto/DepartmentDto.java:8-9 | The body is accepted iff the name is non-blank. Otherwise the only field error is "Department name is required" on `name`. |
| DepartmentController.GetAll | hrservice/src/main/java/com/hrservice/hrservice/controller/DepartmentController.java:30-40 | The list is returned iff the caller holds one of the three roles. Otherwise the gate's refusal is returned. |
| DepartmentController.Get | hrservice/src/main/java/com/hrservice/hrservice/controller/DepartmentController.java:42-55 | For admitted callers: 404 iff the id is absent, otherwise 200 with the stored department. |
| DepartmentController.CreateDepartment | hrservice/src/main/java/com/hrservice/hrservice/controller/DepartmentController.java:57-68 | On success: 201 with the new row under the next id. Failures leave the table unchanged. Names stay unique. |
| DepartmentController.UpdateDepartment | hrservice/src/main/java/com/hrservice/hrservice/controller/DepartmentController.java:70-75 | On success: 200 with the updated row. Failures leave the table unchanged. |
| DepartmentController.AssignHodEndpoint | hrservice/src/main/java/com/hrservice/hrservice/controller/DepartmentController.java:77-92 | On success: 200 with the department carrying the new HOD. Failures change nothing. |
| DepartmentController.DeleteDepartment | hrservice/src/main/java/com/hrservice/hrservice/controller/DepartmentController.java:94-99 | On success: 204, and the department existed before and is gone after. |
| DepartmentController.ReadAccess | hrservice/src/main/java/com/hrservice/hrservice/controller/DepartmentController.java:30-55 | Reading is allowed iff the caller is authenticated with role hr, hod or employee, in any letter case. |
| DepartmentController.CreateStatus | hrservice/src/main/java/com/hrservice/hrservice/controller/DepartmentController.java:57-68 | Create answers 400 for a blank name (even for callers who are not HR), then 401 or 403 from the gate, then 400 for a taken name, otherwise 201. |
| DepartmentController.UpdateStatus | hrservice/src/main/java/com/hrservice/hrservice/controller/DepartmentController.java:70-75 | Update answers 400 for a blank name, then the gate's 401 or 403, then 400 for a missing id or a clash, otherwise 200. |
| DepartmentController.AssignHodStatus | hrservice/src/main/java/com/hrservice/hrservice/controller/DepartmentController.java:77-92 | assign-hod answers the gate's 401 or 403, then 400 for a missing id, otherwise 200. |
| DepartmentController.DeleteStatus | hrservice/src/main/java/com/hrservice/hrservice/controller/DepartmentController.java:94-99 | Delete answers the gate's 401 or 403, then 400 for a missing id, otherwise 204. |
| DepartmentController.OnlyHrWrites | hrservice/src/main/java/com/hrservice/hrservice/controller/DepartmentController.java:57-99 | A caller who is not HR leaves the departments unchanged through every write endpoint. |
| LeaveTypeController.ValidateBody | hrservice/src/main/java/com/hrservice/hrservice/dto/LeaveTypeDto.java:8-9 | The body is accepted iff the name is non-blank. Otherwise the field error is "Leave type name is required". |
| LeaveTypeController.GetAll | hrservice/src/main/java/com/hrservice/hrservice/controller/LeaveTypeController.java:30-34 | The list is returned iff the gate admits the caller. |
| LeaveTypeController.Get | hrservice/src/main/java/com/hrservice/hrservice/controller/LeaveTypeController.java:36-42 | For admitted callers: 404 iff the id is absent, otherwise 200 with the stored leave type. |
| LeaveTypeController.CreateLeaveType | hrservice/src/main/java/com/hrservice/hrservice/controller/LeaveTypeController.java:44-55 | On success: 201 with the new row under the next id. Failures change nothing. |
| LeaveTypeController.UpdateLeaveType | hrservice/src/main/java/com/hrservice/hrservice/controller/LeaveTypeController.java:57-62 | On success: 200 with the updated row. Failures change nothing. |
| LeaveTypeController.DeleteLeaveType | hrservice/src/main/java/com/hrservice/hrservice/controller/LeaveTypeController.java:64-69 | On success: 204, and the leave type existed and is gone. |
| LeaveTypeController.ReadAccess | hrservice/src/main/java/com/hrservice/hrservice/controller/LeaveTypeController.java:30-42 | Reading is allowed iff the caller is authenticated with one of the three roles, in any letter case. |
| LeaveTypeController.CreateStatus | hrservice/src/main/java/com/hrservice/hrservice/controller/LeaveTypeController.java:44-55 | Create answers 400 for a blank name, then the gate's 401 or 403, then 400 for a taken name, otherwise 201. |
| LeaveTypeController.UpdateStatus | hrservice/src/main/java/com/hrservice/hrservice/controller/LeaveTypeController.java:57-62 | Update answers 400 for a blank name, the gate's 401 or 403, 400 for a missing id or a clash, otherwise 200. |
| LeaveTypeController.DeleteStatus | hrservice/src/main/java/com/hrservice/hrservice/controller/LeaveTypeController.java:64-69 | Delete answers the gate's 401 or 403, 400 for a missing id, otherwise 204. |
| LeaveTypeController.OnlyHrWrites | hrservice/src/main/java/com/hrservice/hrservice/controller/LeaveTypeController.java:44-69 | A caller who is not HR leaves the leave types unchanged through every write endpoint. |
| LeaveRequestService.CurrentUser | hrservice/src/main/java/com/hrservice/hrservice/service/LeaveRequestService.java:183-189 | The current user is the authenticated principal. Without one: "User not authenticated". |
| LeaveRequestService.DepartmentEmployeeIds | hrservice/src/main/java/com/hrservice/hrservice/service/LeaveRequestService.java:191-199 | The employee ids, in order, of the users the identity service lists for the department under the caller's token. |
| LeaveRequestService.FindById | hrservice/src/main/java/com/hrservice/hrservice/service/LeaveRequestService.java:34-37 | The stored request iff the id exists. Otherwise "Leave request not found with id: …". |
| LeaveRequestService.FindMyLeaveRequests | hrservice/src/main/java/com/hrservice/hrservice/service/LeaveRequestService.java:43-46 | For an authenticated caller: exactly the requests filed under their employee id. |
| LeaveRequestService.HeadedDepartment | hrservice/src/main/java/com/hrservice/hrservice/service/LeaveRequestService.java:54-58 | None iff no department names the employee as HOD. Otherwise one stored department that does. |
| LeaveRequestService.PendingOf | hrservice/src/main/java/com/hrservice/hrservice/service/LeaveRequestService.java:67-71 | Exactly the pending requests of the listed employees. |
| LeaveRequestService.FindPendingForHod | hrservice/src/main/java/com/hrservice/hrservice/service/LeaveRequestService.java:48-73 | Unauthenticated callers and roles other than hod (ignoring case) are refused. A HOD heading no department is refused with "No department found where you are HOD". Otherwise the result is exactly the pending requests of the first headed department's staff. |
| LeaveRequestService.NewRequest | hrservice/src/main/java/com/hrservice/hrservice/service/LeaveRequestService.java:114-123 | The new request is the application, filed pending under the caller's employee id and stamped with the clock. |
| LeaveRequestService.Create | hrservice/src/main/java/com/hrservice/hrservice/service/LeaveRequestService.java:75-124 | Checks in order: authentication, end before start, unknown leave type, caller without department, unknown department, and an approved or pending leave of a department colleague meeting the range. Each check fails with its own message. A failure stores nothing. Success stores exactly the new pending request under the next id. |
| LeaveRequestService.CheckReviewer | hrservice/src/main/java/com/hrservice/hrservice/service/LeaveRequestService.java:127-153 | Refused in order: unauthenticated, not hod, unknown request, not pending, owner without a department (unknown to the identity service included), unknown department, caller not that department's HOD. It passes exactly when none applies, and then names the request and its department. |
| LeaveRequestService.Decided | hrservice/src/main/java/com/hrservice/hrservice/service/LeaveRequestService.java:155-178 | The decision records the reviewer. "approve" (any case) approves and keeps the rejection reason. Anything else admitted here rejects and records the given reason. All other fields are unchanged. |
| LeaveRequestService.ApproveOrReject | hrservice/src/main/java/com/hrservice/hrservice/service/LeaveRequestService.java:127-181 | The reviewer's refusals come first. An action other than approve or reject is refused. Approving is refused when a colleague's approved or pending leave, other than this one, meets it. Success rewrites only this request, with the decision. Failure changes nothing. |
| LeaveRequestService.DecisionsAreFinal | hrservice/src/main/java/com/hrservice/hrservice/service/LeaveRequestService.java:137-139 | A request that is already approved or rejected is never changed by a review. |
| LeaveRequestProperties.CreatedRequestClashesWithNobody | hrservice/src/main/java/com/hrservice/hrservice/service/LeaveRequestService.java:99-112 | After a successful application, no approved or pending leave of a colleague the identity service listed shares a day with the new one. |
| LeaveRequestProperties.ApprovedRequestClashesWithNobody | hrservice/src/main/java/com/hrservice/hrservice/service/LeaveRequestService.java:155-171 | After a successful approval, no other approved or pending leave of the listed department staff shares a day with it. |
| LeaveRequestProperties.DecisionKeepsApprovedLeavesApart | hrservice/src/main/java/com/hrservice/hrservice/service/LeaveRequestService.java:127-181 | If no two approved leaves of the staff shared a day before a review, none do after it. |
| LeaveRequestController.FieldErrors | hrservice/src/main/java/com/hrservice/hrservice/dto/LeaveRequestDto.java:11-20 | One error per field: a missing leave type, and for each date "… is required" when missing or "… must be today or in the future" when past. No other keys. |
| LeaveRequestController.ValidateApplication | hrservice/src/main/java/com/hrservice/hrservice/dto/LeaveRequestDto.java:11-22 | The body becomes an application iff all three fields are present and both dates are today or later. Otherwise it is a validation failure carrying exactly those field errors. |
| LeaveRequestController.GetAll | hrservice/src/main/java/com/hrservice/hrservice/controller/LeaveRequestController.java:31-35 | Every stored request iff the caller is hr or hod. |
| LeaveRequestController.GetMine | hrservice/src/main/java/com/hrservice/hrservice/controller/LeaveRequestController.java:37-41 | For any of the three roles: 200 with the caller's own requests. |
| LeaveRequestController.GetPending | hrservice/src/main/java/com/hrservice/hrservice/controller/LeaveRequestController.java:43-47 | The gate's refusal, or the service's pending list for a HOD. |
| LeaveRequestController.GetOne | hrservice/src/main/java/com/hrservice/hrservice/controller/LeaveRequestController.java:49-53 | The gate's refusal, or the service's lookup. |
| LeaveRequestController.CreateEndpoint | hrservice/src/main/java/com/hrservice/hrservice/controller/LeaveRequestController.java:55-67 | Body errors come first, then the employee-only gate, then the service. Success is 201 with the stored request. Failure changes nothing. |
| LeaveRequestController.ReviewEndpoint | hrservice/src/main/java/com/hrservice/hrservice/controller/LeaveRequestController.java:68-82 | The hod-only gate, then the service. Success is 200 with the decided request. Failure changes nothing. |
| LeaveRequestController.RoleTable | hrservice/src/main/java/com/hrservice/hrservice/controller/LeaveRequestController.java:31-70 | Who may call what: listing all for hr and hod, own requests and single reads for all three roles, pending and review for hod, applying for employee. |
| LeaveRequestController.OnlyEmployeesApply | hrservice/src/main/java/com/hrservice/hrservice/controller/LeaveRequestController.java:55-67 | A successful application was made by a caller with role employee. |
| LeaveRequestController.NoOwnershipCheckOnRead | hrservice/src/main/java/com/hrservice/hrservice/controller/LeaveRequestController.java:49-53 | Any employee can read any leave request by id. |
| LeaveRequestController.ServiceRoleCheckIsRedundant | hrservice/src/main/java/com/hrservice/hrservice/service/LeaveRequestService.java:130-132 | Behind the hod gate, the service's own "Only HOD can approve or reject" refusal cannot occur. |
| LeaveRequestController.CreateStatus | hrservice/src/main/java/com/hrservice/hrservice/controller/LeaveRequestController.java:55-67 | The status of an application: 400 for body errors, the gate's 401 or 403, the service's statuses, otherwise 201. |
| LeaveRequestController.ReviewOfMissingRequestIs400 | hrservice/src/main/java/com/hrservice/hrservice/service/LeaveRequestService.java:134-135 | Reviewing a request that does not exist is answered 400, not the advertised 404. |
| NestHttp.StatusOf | src/auth/auth.controller.ts:86-94 | The status Nest sends for each exception it throws: 401, 403, 404, 409, or 500 for anything else. |
| Users.FindOne | src/users/users.service.ts:68-73 | A row comes back iff a user has the id. It carries `isActive` and no password. In a consistent table it is that user's projection. |
| Users.FindByEmployeeId | src/users/users.service.ts:83-97 | A row comes back iff the employee id is taken. It has `isActive` but no password, since the select list omits it. |
| Users.FindByEmployeeIdWithPassword | src/users/users.service.ts:99-112 | The same lookup, with the stored password hash included. |
| Users.FindByDepartment | src/users/users.service.ts:114-121 | Every user of the department (active or not) and only those, each without `isActive` or password. |
| Users.InsertRow | src/users/entirires/user.entity.ts:12-22 | The insert succeeds iff id, email and employee id are all unused. It then appends the row. A unique-constraint violation is a 500. Uniqueness is kept. |
| Users.Create | src/users/users.service.ts:20-33 | A taken employee id is 409 "Employee ID already exists". A taken email is a 500. Otherwise the user is stored with the bcrypt hash of the password and returned without it. Failures change nothing. |
| Users.Update | src/users/users.service.ts:35-51 | A missing id is 404 "User with ID … not found". A non-empty new password is stored hashed. An empty one is stored as given. Omitted fields are kept and other users untouched. The result is the re-read row. |
| Users.Remove | src/users/users.service.ts:75-81 | A missing id is 404. Otherwise the user is kept but deactivated, and nothing else changes. |
| Users.RemovedEmployeeIdStaysTaken | src/users/users.service.ts:20-24 | After removal the employee id still blocks a new user with 409: removal is soft. |
| Users.RemoveIsIdempotent | src/users/users.service.ts:75-81 | Removing a user twice is removing them once. |
| Users.RemovedUserStillInDepartment | src/users/users.service.ts:114-121 | A deactivated user is still listed in their department. |
| Auth.GenerateToken | src/auth/auth.service.ts:78-98 | The reply's user is the record without `isActive`. The token verifies to the same fields plus `isActive`. |
| Auth.ValidatePayload | src/auth/jwt.strategy.ts:16-30 | A payload is accepted iff `isActive` is true; otherwise "User account is deactivated". The principal carries the payload's fields. |
| Auth.Guard | src/auth/jwt.strategy.ts:10-30 | A missing token or one that fails verification is 401 "Unauthorized". Otherwise the payload check decides. |
| Auth.CheckCredentials | src/auth/auth.service.ts:20-37 | Unknown user, then wrong password, are 401 "Invalid credentials". Then an inactive account is 403 "Account is deactivated". Otherwise the token for that user. |
| Auth.Login | src/auth/auth.service.ts:20-38 | As written: an unknown employee id is 401. Any success needs the password to match the dummy hash, because the looked-up row never carries the stored hash. |
| Auth.LoginNeverSucceeds | src/auth/auth.service.ts:25-33 | If no password matches the dummy hash, every login is 401 "Invalid credentials". |
| Auth.LoginWithStoredHash | src/users/users.service.ts:99-112 | With the password selected: unknown user is 401. A user whose stored hash accepts the password logs in iff active, otherwise 403. |
| Auth.CreatedUserCanLogIn | src/users/users.service.ts:20-33 | A freshly created user logs in with their own password and receives the token for their record. |
| Auth.RemovedUserCannotLogIn | src/users/users.service.ts:75-81 | After removal, the correct password gets 403 "Account is deactivated". |
| Auth.Register | src/auth/auth.service.ts:40-52 | Checked in order: caller not "hr" is refused, HOD or employee without a (non-zero) department is refused, then user creation decides. On success the token is for the new user with the requested fields, and any non-HR user has a department. |
| Auth.ValidateToken | src/auth/auth.service.ts:54-76 | Never throws. A bad token gives its verification error. An unknown or inactive user gives "Invalid or inactive user". Otherwise `valid` with the stored user's public fields. |
| Auth.RegisterEndpoint | src/auth/auth.controller.ts:60-97 | The JWT guard, then an exact "hr" roles check answering 403 "Forbidden resource", then registration. Failures change nothing. |
| Auth.RegisterStatus | src/auth/auth.controller.ts:60-97 | Register answers 401, 403 (roles), 403 (department), 409, 500 or success, each exactly in its case. |
| Auth.ServiceHrCheckUnreachable | src/auth/auth.service.ts:41-43 | Behind the roles guard, the service's "Only HR can register users" refusal never occurs. |
| Auth.ValidateEndpoint | src/auth/auth.controller.ts:99-130 | `/auth/validate` answers `valid` with the guard's principal iff the guard accepts the token, otherwise 401. The user table is not consulted. |
| Auth.DeactivatedUserKeepsValidating | src/auth/auth.controller.ts:128-130 | A token issued while a user was active still validates after the user is removed. |
| Auth.UsersByDepartmentEndpoint | src/auth/auth.controller.ts:159-185 | Past the guard, only the exact roles "hr" and "hod" get the department list. Others get 403 "Only HR and HOD can view users by department". |
| Auth.DepartmentListRefusals | src/auth/auth.controller.ts:179-183 | Employees are refused the list, and so are "HOD" and "Hr": the comparison is case-sensitive. |
| Auth.UserByEmployeeIdEndpoint | src/auth/auth.controller.ts:187-201 | Any authenticated caller may look up any employee. The answer is the lookup, without password, or null. |
| Seed.SeedHrUser | auth-service/src/users/seed.service.ts:21-52 | With an HR user present nothing changes. Otherwise the default HR user (HR001, hr@company.com, hash of admin123, active, no department) is appended, unless the insert fails, which is swallowed and leaves the table as it was. Uniqueness is kept. |
| Seed.SeedIsIdempotent | auth-service/src/users/seed.service.ts:21-52 | Seeding a second time changes nothing. |
| Seed.SeedOutcome | auth-service/src/users/seed.service.ts:21-52 | After seeding there is an HR user iff there was one, or the default email and employee id were both free. |
| IdentityService.ValidateCall | src/auth/auth.controller.ts:99-130 | Over a reachable link, validation is delivered iff the guard accepts the token, and carries the guard's principal. |
| IdentityService.DepartmentCall | src/auth/auth.controller.ts:159-185 | Delivered iff reachable and the endpoint answers, with the department's users in order. |
| IdentityService.EmployeeCall | src/auth/auth.controller.ts:187-201 | Delivered iff reachable and the token passes the guard. The body is present iff the employee id is taken. |
| IdentityService.RefusedListIsEmpty | hrservice/src/main/java/com/hrservice/hrservice/service/AuthServiceClient.java:44-60 | For a token that is neither "hr" nor "hod", the identity service refuses the department list, and hrservice reads the refusal as an empty department. |
| IdentityService.EmployeeTokenSkipsClashCheck | hrservice/src/main/java/com/hrservice/hrservice/service/LeaveRequestService.java:99-112 | With such a token the overlap check looks at nobody, so an application is never refused for clashing with a colleague. |
| IdentityService.AdmittedApplicantsSkipClashCheck | hrservice/src/main/java/com/hrservice/hrservice/controller/LeaveRequestController.java:55-67 | End to end: every caller the create endpoint admits holds an employee token, so the "another employee … already has … leave" refusal never happens. |
| IdentityService.ClashingApplicationAccepted | hrservice/src/main/java/com/hrservice/hrservice/service/LeaveRequestService.java:99-112 | As written: an employee's application is accepted even when a colleague's approved or pending leave shares a day with it. |
| Auth.DepartmentListForAnyCaller | src/auth/auth.controller.ts:159-185 | Corrected endpoint: the department list is served iff the token passes the guard, and is exactly the department's users. |
| IdentityService.CorrectedDepartmentCall | src/auth/auth.controller.ts:159-185 | Against the corrected endpoint, the list is delivered iff the service is reachable and the token passes the guard, with the department's users in order. |
| IdentityService.CorrectedListIsWholeDepartment | hrservice/src/main/java/com/hrservice/hrservice/service/LeaveRequestService.java:191-199 | Against the corrected endpoint, every user filed under the department appears in the leave service's department list. |
| IdentityService.CorrectedCreateKeepsDepartmentApart | hrservice/src/main/java/com/hrservice/hrservice/service/LeaveRequestService.java:99-112 | Against the corrected endpoint, an accepted application shares no day with any approved or pending leave of a user of the applicant's department. |
| IdentityService.ViewerSeesWholeDepartment | src/users/users.service.ts:114-121 | With a HOD's or HR's token and a reachable service, every user filed under the department is in hrservice's department list. |
| IdentityService.HodDecisionsKeepDepartmentApart | hrservice/src/main/java/com/hrservice/hrservice/service/LeaveRequestService.java:155-171 | With a HOD's token, a review never leads to two approved leaves of department users sharing a day. |

## Where the code differs from its documented behaviour

In the cases below, the code behaves differently from what its API annotations advertise or its error texts suggest. The model follows the code.

- A review of a request that does not exist, or is not pending, is an illegal argument, answered 400. The annotation of the review endpoint advertises 404 (see `LeaveRequestController.ReviewOfMissingRequestIs400`).
- An overlap is an illegal argument, answered 400. So are a missing leave type and a missing department. There is no distinct conflict error.
- The service's own "User not authenticated" refusal is answered 403, not 401 (see `Exceptions.ServiceUnauthenticatedIsForbidden`).
- The create endpoint is annotated as preventing overlapping leaves in a department. As written it never does, because the identity service refuses the department list to employees (see Findings).

## Left out

- HTTP transport, Spring and Nest wiring, modules, Swagger annotations and configuration classes are not modelled. The identity service's reachability is a parameter, and a transport failure is a `Failed` call.
- The filter's `ThreadLocal` token holder is modelled only as the token held during and after the chain. Thread interleaving is not modelled.
- `@Transactional` boundaries and concurrent requests are not modelled. Each operation runs alone on one database state, so races between two overlap checks are out of scope.
- Clock readings (`LocalDate.now()`, `LocalDateTime.now()`, `@PrePersist` and `@PreUpdate`) are parameters. Dates are day numbers.
- bcrypt and JWT are uninterpreted functions. Salts, cost factors, token expiry and signature cryptography are not modelled, so "verifies" means whatever the supplied `verify` says.
- The empty `IN ()` list of the overlap query is modelled as matching nothing. The database's own handling of an empty list is not modelled.
- `getUserDepartmentId` and the unused `currentUser` in `getDepartmentEmployeeIds` are dead code and are not modelled.
- `LeaveApprovalDto` and `entity/Department.java` are not part of this model. The review action and reason are optional strings, and a department is a name, an optional description and an optional HOD employee id.
- `roles.guard.ts`, `role.enum.ts` and `update-user.dto.ts` are not part of this model. The assumptions made for them are stated above.
- class-validator checks on `RegisterDto`, `LoginDto` and `CreateUserDto`, and Nest's ValidationPipe, are not modelled. Register and login receive already-bound DTOs.
- User timestamps, `UsersService.findAll`, `UsersService.validatePassword` and `AuthController.getProfile` are not modelled. They state nothing beyond what the other lookups state.
- TypeORM's error for an update body with no columns is not modelled: an empty update succeeds and re-reads the row.
- A null response body from the department endpoint is not modelled; a delivered list is always a list.
- Case folding (`toLowerCase`, `toUpperCase`, `equalsIgnoreCase`) is modelled on ASCII letters only.
- Passport's header extraction is modelled as an optional token. Its own parsing of the Authorization header is not modelled.
- A database outage during seeding is not modelled. Only the unique-constraint failure of the insert, which the seed swallows, is.
- The leave service's `findAll` and `findByEmployeeId` service methods pass straight through to the repository and have no rows of their own.
- Users.InsertRow: the database assigns fresh ids, which the model takes as a parameter. An id clash is therefore treated like any other constraint violation (500), not as impossible.
- Auth.ValidateToken: the service method is modelled, but no endpoint calls it.
- Auth.UsersByDepartmentEndpoint: models `auth.controller.ts:184` with `UsersService.findByDepartment` standing in for `authService.getUsersByDepartment`, which `auth.service.ts` does not define. As written, the call throws, Nest answers 500, and hrservice's fail-open client reads that as an empty department. Every HOD review then fails with "Employee must be assigned to a department", and the HOD's pending list is empty. `IdentityService.ViewerSeesWholeDepartment`, `IdentityService.HodDecisionsKeepDepartmentApart` and `IdentityService.CorrectedCreateKeepsDepartmentApart` hold only under this substitution.
- Auth.UserByEmployeeIdEndpoint: models `auth.controller.ts:199` with `UsersService.findByEmployeeId` standing in for `authService.getUserByEmployeeId`, which `auth.service.ts` does not define. As written, the call throws, Nest answers 500, and hrservice's fail-open client reads that as no user.
- Seed.SeedHrUser: `auth-service/src/users/entirires/user.entity.ts`, the entity the seed imports, is not part of this model. The seed reuses the user table of `src/users/entirires/user.entity.ts`, with its unique email and employee id.

## Findings

| source | as written | input that shows it | evidently intended | confidence | as-written member | corrected member |
|---|---|---|---|---|---|---|
| src/auth/auth.service.ts:20-38 with src/users/users.service.ts:83-97 | `login` looks the user up with `findByEmployeeId`, whose select list omits `password`. `user?.password` is therefore always undefined, and the password is always compared against the dummy hash `$2b$12$dummyHashToPreventTimingAttack`. | The seeded user HR001 logging in with admin123: the comparison is against the dummy hash, not the stored hash of admin123, so the answer is 401 "Invalid credentials". | `login` should use `findByEmployeeIdWithPassword` and compare against the stored hash, so that a created user can log in with their password. | not executed | Auth.Login (with Auth.LoginNeverSucceeds) | Auth.LoginWithStoredHash (with Auth.CreatedUserCanLogIn) |
| hrservice/src/main/java/com/hrservice/hrservice/service/LeaveRequestService.java:99-112 with src/auth/auth.controller.ts:179-183 | `create` asks the identity service for the department's users with the applicant's own token. Only employees may apply, and the identity service refuses the department list to every role except exactly "hr" and "hod". The refusal is read as an empty department, so the overlap check never finds a colleague. | An employee E2 has a pending leave from day 1 to day 5. A colleague E3 in the same department applies for days 4 to 6. The application is stored, where a refusal for overlapping leave was intended. | An applicant's overlap check sees every user of their department. Here, the department list is served to every authenticated caller. | not executed | IdentityService.ClashingApplicationAccepted (with IdentityService.AdmittedApplicantsSkipClashCheck) | IdentityService.CorrectedCreateKeepsDepartmentApart (with Auth.DepartmentListForAnyCaller) |
