# Volleyball roster: validation, error translation and endpoint decisions

This project models the request pipeline of a small roster service for a
volleyball team. The path is validate, then translate the errors or delegate
to the service, for the `Member` record:

- **Members** (`members.dfy`): the `Member` record, with six nullable fields.
  It also holds the three declared constraints: `@NotBlank` on `name`, and
  `@Min(1)` and `@Max(20)` on `uniformNumber`. `Valid` states the accepted
  values as ranges. `Violations` lists each broken constraint with its fixed
  message.
- **Binding** (`binding.dfy`): Spring's `BindingResult` and `ObjectError` /
  `FieldError`, and `Validate`, which turns violations into field errors.
- **LinkedHashMaps** (`linked_hash_maps.dfy`): `java.util.LinkedHashMap` as a
  class over an association list. `put` overwrites a present key in place and
  appends a new key at the end.
- **ExceptionHandling** (`exception_handling.dfy`): `handleValidationErrors`.
  It is a loop that puts every error's field and message into a fresh
  LinkedHashMap and answers with status 400. It is proved against `Collected`,
  a left fold. The lemmas prove first-occurrence key order, last-write-wins
  values and one entry per distinct field.
- **Services** (`services.dfy`): `MemberService` as the controllers see it. It
  has the stored list that `getAllMembers` answers and a ghost log of every
  call made.
- **RestControllers** (`member_controller.dfy`): `GET /members` and
  `POST /members`. `PostMembers` follows the POST from validation to the
  service call or the 400 response.
- **ViewControllers** (`member_view_controller.dfy`): the HTML handlers
  `list`, `newForm`, `create`, `editForm`, `update` and `delete`. The edit
  lookup is the pure function `FindFirstWithId`.

- `uniformNumber` may be null: no `@NotNull` is declared, and `@Min`/`@Max`
  accept null.
- The keys of the map built by `handleValidationErrors` come in the order of
  each field's first occurrence. Their values are last-write-wins.

`@NotBlank` is decided here as Hibernate Validator decides it: the string is
non-null and `String.trim()` of it is non-empty. `trim` strips the code points
up to U+0020. `Valid` states this as "some character above U+0020".
`NotBlank` proves the trimming check equal to that.

## Model

| member | source | states |
|---|---|---|
| Members.Trim | src/main/java/com/example/volleyball/entity/Member.java:115-116 | the trimmed string is the slice of the input left after dropping its leading and trailing characters up to U+0020; it is empty exactly when every character is such a one; otherwise it starts and ends with a character above U+0020 |
| Members.NotBlank | src/main/java/com/example/volleyball/entity/Member.java:115-116 | a name passes @NotBlank iff it is non-null and has a character above U+0020, so null, "" and names of only such characters fail |
| Members.Violations | src/main/java/com/example/volleyball/entity/Member.java:113-126 | no violations iff the member is valid; the name message appears iff the name is blank; "背番号は1以上" iff the number is present and below 1; "背番号は20以下" iff it is present and above 20; no other violation; no field twice, so at most one for uniformNumber |
| Members.UnconstrainedFieldsIgnored | src/main/java/com/example/volleyball/entity/Member.java:113-126 | any values of id, joinDate, createdAt and updatedAt, null included, leave the violations unchanged |
| Members.ValidRegistrationExample | src/test/java/com/example/volleyball/controller/MemberControllerIntegrationTest.java:27-37 | name "日向翔陽" with number 10 has no violations |
| Members.BlankNameExample | src/test/java/com/example/volleyball/controller/MemberControllerIntegrationTest.java:40-50 | name "" with number 10 has exactly the name violation |
| Members.OutOfRangeExample | src/test/java/com/example/volleyball/controller/MemberControllerIntegrationTest.java:53-63 | number 100 has exactly the @Max violation |
| Binding.Validate | src/main/java/com/example/volleyball/entity/Member.java:115-120 | the binding result has errors iff the member is invalid; all of them are field errors on name or uniformNumber, at most two |
| LinkedHashMaps.AfterPut | src/main/java/com/example/volleyball/exception/GlobalExceptionHandler.java:79 | put keeps the key order when the key is present and appends it otherwise; the key then maps to the new value; every other key keeps its value |
| LinkedHashMaps.LinkedHashMap.constructor | src/main/java/com/example/volleyball/exception/GlobalExceptionHandler.java:61 | a new map is empty |
| LinkedHashMaps.LinkedHashMap.Put | src/main/java/com/example/volleyball/exception/GlobalExceptionHandler.java:79 | put updates the entries as AfterPut says and keeps the keys distinct |
| ExceptionHandling.HandleValidationErrors | src/main/java/com/example/volleyball/exception/GlobalExceptionHandler.java:46-92 | fails with a ClassCastException on the first error that is not a field error, iff there is one; otherwise answers status 400 with the map built by putting every error in list order |
| ExceptionHandling.CollectedKeys | src/main/java/com/example/volleyball/exception/GlobalExceptionHandler.java:76-80 | the map's keys are distinct and are exactly the fields named by some error |
| ExceptionHandling.CollectedKeyOrder | src/main/java/com/example/volleyball/exception/GlobalExceptionHandler.java:61-80 | keys come in the order of each field's first occurrence in the error list |
| ExceptionHandling.CollectedLastWriteWins | src/main/java/com/example/volleyball/exception/GlobalExceptionHandler.java:79 | each field maps to the message of its last error |
| ExceptionHandling.LastMessageOfDistinct | src/main/java/com/example/volleyball/exception/GlobalExceptionHandler.java:79 | when no two errors share a field, `LastMessage` gives each field its one error's message, and None for a field no error names; with CollectedLastWriteWins this is the map's value |
| ExceptionHandling.CollectedSize | src/main/java/com/example/volleyball/exception/GlobalExceptionHandler.java:61-80 | the map size is the number of distinct field names; the map is empty iff the error list is |
| ExceptionHandling.RejectionBody | src/main/java/com/example/volleyball/exception/GlobalExceptionHandler.java:76-91 | for any member, the 400 body maps name to "名前は必須です" iff the name is blank and uniformNumber to the @Min or @Max message iff that bound is broken; it has no other key |
| ExceptionHandling.BlankNameResponse | src/test/java/com/example/volleyball/controller/MemberControllerIntegrationTest.java:46-50 | the blank-name request's body is exactly name ↦ "名前は必須です" |
| ExceptionHandling.OutOfRangeResponse | src/test/java/com/example/volleyball/controller/MemberControllerIntegrationTest.java:59-63 | the number-100 request's body has exactly the key uniformNumber, mapped to "背番号は20以下" |
| Services.MemberService.GetAllMembers | src/main/java/com/example/volleyball/service/MemberService.java:17-19 | returns the stored list and logs one list call |
| Services.MemberService.RegisterMember | src/main/java/com/example/volleyball/service/MemberService.java:21-23 | logs one register call with the given member; the stored list may change in any way |
| Services.MemberService.UpdateMember | src/main/java/com/example/volleyball/service/MemberService.java:25-27 | logs one update call with the given member; the stored list may change in any way |
| Services.MemberService.DeleteMember | src/main/java/com/example/volleyball/service/MemberService.java:29-31 | logs one delete call with the given id; the stored list may change in any way |
| RestControllers.MemberController.GetAllMembers | src/main/java/com/example/volleyball/controller/MemberController.java:78-82 | returns exactly the service's list, same elements in the same order, after one service call |
| RestControllers.MemberController.RegisterMember | src/main/java/com/example/volleyball/controller/MemberController.java:84-88 | hands the very member to registerMember exactly once and answers "登録成功" |
| RestControllers.MemberController.PostMembers | src/main/java/com/example/volleyball/controller/MemberController.java:84-88 | a valid member is registered once and gets 200 "登録成功"; an invalid one never reaches the service, leaves the stored list unchanged and gets the 400 body of `handleValidationErrors` |
| ViewControllers.FindFirstWithId | src/main/java/com/example/volleyball/controller/MemberViewController.java:47-50 | scans the list in order: the first member whose id equals the path id is returned; a null id met first throws NullPointerException; no match throws NoSuchElementException |
| ViewControllers.MemberViewController.List | src/main/java/com/example/volleyball/controller/MemberViewController.java:22-27 | shows "member/list" with the service's list |
| ViewControllers.MemberViewController.NewForm | src/main/java/com/example/volleyball/controller/MemberViewController.java:29-33 | shows "member/form" with an all-null member, whose only violation is the blank name |
| ViewControllers.MemberViewController.Create | src/main/java/com/example/volleyball/controller/MemberViewController.java:35-43 | with errors: "member/form", no service call and the stored list unchanged; without errors: one register call with the bound member, then the redirect |
| ViewControllers.MemberViewController.EditForm | src/main/java/com/example/volleyball/controller/MemberViewController.java:45-53 | one list call; "member/edit" with the member FindFirstWithId selects, or its fault |
| ViewControllers.MemberViewController.Update | src/main/java/com/example/volleyball/controller/MemberViewController.java:55-65 | with errors: "member/edit", the member untouched, no service call and the stored list unchanged; without: the id set to the path id and nothing else changed, one update call with that member, then the redirect |
| ViewControllers.MemberViewController.Delete | src/main/java/com/example/volleyball/controller/MemberViewController.java:67-71 | one delete call with the path id, then the redirect, unconditionally |

## Left out

- Services.MemberService.RegisterMember: promises the recorded call only. The stored list may change in any way, because what insert does (the new row, id assignment, `createdAt`) happens in SQL that is not part of this model. So the round trip "a registered member then appears in the list" is not proved.
- Services.MemberService.UpdateMember: promises the recorded call only, and the stored list may change in any way. What the store's update does (and `updatedAt`) is in SQL that is not part of this model. `MemberService.java:26` calls a mapper `update` that `MemberMapper.java` does not declare.
- Services.MemberService.DeleteMember: promises the recorded call only, and the stored list may change in any way. The same applies to the mapper `delete` called at `MemberService.java:30`. There is no soft-delete flag on `Member` to model.
- Service calls never fail here. A store exception from the mapper would pass up through the service and the controller, and the caller would get neither "登録成功" nor the redirect but a server fault; that path is not modelled.
- Transactions and rollback are not modelled. They rest on a uniqueness constraint in the database schema, which is not part of this model, and the service carries no transactional annotation.
- Spring routing, dependency injection, JSON and form binding, `Model` attributes and template rendering are not modelled. `BindingResult` is taken as an input, and `Binding.Validate` is the one built from the constraints alone. Conversion errors (for example a non-numeric uniformNumber in a form) are possible only as arbitrary `BindingResult` inputs.
- Hibernate Validator's order of violations is unspecified. `Violations` fixes one order (name, then @Min, then @Max). `handleValidationErrors` is proved over every order of errors.
- Members.NotBlank: whitespace is the set `String.trim` strips (code points up to U+0020), as Hibernate Validator's implementation does. `Character.isWhitespace` would also count some wider spaces such as U+3000; those are not treated as blank here. In the other direction, U+0000–U+0008 and U+000E–U+001B are stripped by `trim`, and so count as blank here, though `Character.isWhitespace` does not call them whitespace.
- `LocalDate` and `LocalDateTime` are stand-ins whose fields nothing reads. Lombok's `equals`, `hashCode`, `toString` and accessors are not modelled; `setId` appears as the record update in `Update`.
- `Member` is a value, so `update`'s in-place `setId` is modelled as the returned `bound` member. Aliasing of the bound object with other references is not captured.
- Java `Integer` ids and numbers are unbounded integers. No arithmetic is done on them, so 32-bit overflow cannot arise.
- A `FieldError` whose default message is null, and a null element in the stored list, are not modelled.
