/**
 * MemberController, the JSON surface on /members: GET lists the members,
 * POST validates the body and registers it.
 */
module RestControllers {
  import opened Members
  import opened Binding
  import opened ExceptionHandling
  import opened Services

  /** The body POST /members answers on success. */
  const RegistrationSucceeded: string := "登録成功"

  class MemberController {
    const memberService: MemberService

    constructor (memberService: MemberService)
      ensures this.memberService == memberService
    {
      this.memberService := memberService;
    }

    /** GET /members: exactly the service's list, in its order. */
    method GetAllMembers() returns (ms: seq<Member>)
      modifies memberService`calls
      ensures ms == memberService.members
      ensures memberService.calls == old(memberService.calls) + [GetAllCall]
    {
      ms := memberService.GetAllMembers();
    }

    /** The handler body of POST /members: register the member once, answer the fixed text. */
    method RegisterMember(member: Member) returns (body: string)
      modifies memberService
      ensures body == RegistrationSucceeded
      ensures memberService.calls == old(memberService.calls) + [RegisterCall(member)]
    {
      memberService.RegisterMember(member);
      body := RegistrationSucceeded;
    }

    /**
     * POST /members end to end: @Validated checks the body before the handler
     * runs; a violation raises MethodArgumentNotValidException, which the
     * global advice answers with 400 and the field map, and the service is
     * never called. A valid body reaches the handler and gets 200.
     */
    method PostMembers(member: Member) returns (response: ResponseEntity)
      modifies memberService
      ensures Valid(member) ==> response == ResponseEntity(Text(RegistrationSucceeded), Ok)
                                && memberService.calls == old(memberService.calls) + [RegisterCall(member)]
      ensures !Valid(member) ==> response == ResponseEntity(FieldMessages(Collected(Validate(member).errors)), BadRequest)
                                 && memberService.calls == old(memberService.calls)
                                 && memberService.members == old(memberService.members)
    {
      var result := Validate(member);
      if result.HasErrors() {
        var handled := HandleValidationErrors(result.errors);
        response := handled.value;
      } else {
        var body := RegisterMember(member);
        response := ResponseEntity(Text(body), Ok);
      }
    }
  }
}
