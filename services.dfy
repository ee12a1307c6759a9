/**
 * MemberService as the controllers see it: a list of stored members that
 * getAllMembers answers, and a ghost log of every call the controllers make.
 * What the writes do to the store is decided by SQL that is not part of this
 * model: a write may change the stored list in any way, and only the call
 * itself is promised.
 */
module Services {
  import opened Members

  /** One call into MemberService, with the argument it was given. */
  datatype ServiceCall =
    | GetAllCall
    | RegisterCall(member: Member)
    | UpdateCall(member: Member)
    | DeleteCall(id: int)

  class MemberService {
    /** What the data store's findAll currently answers, in storage order. */
    var members: seq<Member>
    /** Every call made so far, oldest first. */
    ghost var calls: seq<ServiceCall>

    constructor (stored: seq<Member>)
      ensures members == stored && calls == []
    {
      members := stored;
      calls := [];
    }

    /** getAllMembers: the store's list, unchanged. */
    method GetAllMembers() returns (ms: seq<Member>)
      modifies this`calls
      ensures ms == members
      ensures calls == old(calls) + [GetAllCall]
    {
      ms := members;
      calls := calls + [GetAllCall];
    }

    /** registerMember: hands the member to the store's insert. */
    method RegisterMember(member: Member)
      modifies this
      ensures calls == old(calls) + [RegisterCall(member)]
    {
      calls := calls + [RegisterCall(member)];
    }

    /** updateMember: hands the member to the store's update. */
    method UpdateMember(member: Member)
      modifies this
      ensures calls == old(calls) + [UpdateCall(member)]
    {
      calls := calls + [UpdateCall(member)];
    }

    /** deleteMember: hands the id to the store's delete. */
    method DeleteMember(id: int)
      modifies this
      ensures calls == old(calls) + [DeleteCall(id)]
    {
      calls := calls + [DeleteCall(id)];
    }
  }
}
