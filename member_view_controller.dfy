/**
 * MemberViewController, the HTML surface on /view/members. Each handler
 * branches on the BindingResult or the path id, calls the service at most
 * once and answers a view name.
 */
module ViewControllers {
  import opened Wrappers
  import opened Members
  import opened Binding
  import opened Services

  const ListView: string := "member/list"
  const FormView: string := "member/form"
  const EditView: string := "member/edit"
  const RedirectToList: string := "redirect:/view/members"

  /** What editForm can throw: `m.getId()` is null, or `orElseThrow` finds nothing. */
  datatype Fault = NullPointerException | NoSuchElementException

  /** A view name with the member it puts in the model. */
  datatype Rendered = Rendered(view: string, member: Member)

  /** Every member before index k has an id, and none of those ids is id. */
  ghost predicate PassedOver(ms: seq<Member>, id: int, k: int)
    requires 0 <= k <= |ms|
  {
    forall j :: 0 <= j < k ==> ms[j].id.Some? && ms[j].id.value != id
  }

  /**
   * `stream().filter(m -> m.getId().equals(id)).findFirst().orElseThrow()`:
   * the stream stops at the first match, so only the members before it are
   * asked for their id.
   */
  function FindFirstWithId(ms: seq<Member>, id: int): (r: Result<Member, Fault>)
    ensures r.Success? ==> r.value in ms && r.value.id == Some(id)
    ensures forall k :: 0 <= k < |ms| && PassedOver(ms, id, k) && ms[k].id == Some(id) ==> r == Success(ms[k])
    ensures forall k :: 0 <= k < |ms| && PassedOver(ms, id, k) && ms[k].id.None? ==> r == Failure(NullPointerException)
    ensures r == Failure(NoSuchElementException) <==> PassedOver(ms, id, |ms|)
  {
    if ms == [] then Failure(NoSuchElementException)
    else match ms[0].id
      case None => Failure(NullPointerException)
      case Some(x) =>
        if x == id then Success(ms[0])
        else
          assert forall k :: 1 <= k <= |ms| ==> (PassedOver(ms, id, k) <==> PassedOver(ms[1..], id, k - 1));
          FindFirstWithId(ms[1..], id)
  }

  class MemberViewController {
    const memberService: MemberService

    constructor (memberService: MemberService)
      ensures this.memberService == memberService
    {
      this.memberService := memberService;
    }

    /** GET /view/members: the list page over the service's list. */
    method List() returns (view: string, members: seq<Member>)
      modifies memberService`calls
      ensures view == ListView && members == memberService.members
      ensures memberService.calls == old(memberService.calls) + [GetAllCall]
    {
      members := memberService.GetAllMembers();
      view := ListView;
    }

    /** GET /view/members/new: the empty form, with no service call. */
    method NewForm() returns (view: string, member: Member)
      ensures view == FormView && member == NewMember
      ensures Violations(member) == [Violation(NameField, NameRequired)]
    {
      member := NewMember;
      view := FormView;
    }

    /** POST /view/members: redisplay the form on errors, else register once and redirect. */
    method Create(member: Member, result: BindingResult) returns (view: string)
      modifies memberService
      ensures result.HasErrors() ==> view == FormView && memberService.calls == old(memberService.calls)
                                     && memberService.members == old(memberService.members)
      ensures !result.HasErrors() ==> view == RedirectToList
                                      && memberService.calls == old(memberService.calls) + [RegisterCall(member)]
    {
      if result.HasErrors() {
        return FormView;
      }
      memberService.RegisterMember(member);
      view := RedirectToList;
    }

    /** GET /view/members/{id}/edit: the first listed member with that id, or a fault. */
    method EditForm(id: int) returns (r: Result<Rendered, Fault>)
      modifies memberService`calls
      ensures memberService.calls == old(memberService.calls) + [GetAllCall]
      ensures match FindFirstWithId(memberService.members, id)
              case Success(m) => r == Success(Rendered(EditView, m))
              case Failure(fault) => r == Failure(fault)
    {
      var members := memberService.GetAllMembers();
      var found := FindFirstWithId(members, id);
      match found
      case Success(m) => r := Success(Rendered(EditView, m));
      case Failure(fault) => r := Failure(fault);
    }

    /**
     * POST /view/members/{id}: redisplay the edit form on errors, leaving the
     * member as bound; else set its id to the path id, update once and redirect.
     * The member as it stands afterwards is returned in `bound`.
     */
    method Update(id: int, member: Member, result: BindingResult) returns (view: string, bound: Member)
      modifies memberService
      ensures result.HasErrors() ==> view == EditView && bound == member
                                     && memberService.calls == old(memberService.calls)
                                     && memberService.members == old(memberService.members)
      ensures !result.HasErrors() ==> view == RedirectToList && bound == member.(id := Some(id))
                                      && memberService.calls == old(memberService.calls) + [UpdateCall(bound)]
    {
      bound := member;
      if result.HasErrors() {
        return EditView, bound;
      }
      bound := bound.(id := Some(id));
      memberService.UpdateMember(bound);
      view := RedirectToList;
    }

    /** POST /view/members/{id}/delete: delete once and redirect, unconditionally. */
    method Delete(id: int) returns (view: string)
      modifies memberService
      ensures view == RedirectToList
      ensures memberService.calls == old(memberService.calls) + [DeleteCall(id)]
    {
      memberService.DeleteMember(id);
      view := RedirectToList;
    }
  }
}
