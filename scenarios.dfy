/** Callers of the registry, checked against the contracts alone: what a sequence of bot
    commands does to the queues. */
module Scenarios {
  import opened Wrappers
  import opened FlockUtil

  /** Creating a queue without a name gives a generated name and the creator as only member;
      queuing the creator again is refused and changes nothing. */
  method GeneratedNameAndDuplicateJoin(u1: User)
  {
    var m := new QueueManager();
    var created, drawn := m.CreateQueue(u1, "");
    assert created.Success?;
    var q := created.value;
    assert IsGeneratedName(q.name) && q.members == [u1.id];
    var again := q.AddMember(u1.id);
    assert again == Fail(DuplicateMember(u1.id)) && q.members == [u1.id];
  }

  /** An explicit name that is already taken is accepted: both queues named "raid" coexist,
      lookup finds the older one and deletion removes only that one. */
  method DuplicateExplicitName(u1: User, u2: User)
  {
    var m := new QueueManager();
    var first, _ := m.CreateQueue(u1, "raid");
    var second, _ := m.CreateQueue(u2, "raid");
    assert first.Success? && second.Success?;
    assert m.queues == [first.value, second.value];
    var found := m.FindQueueByName("raid");
    assert found == Some(first.value);
    ghost var before := m.queues;
    var removed := m.DeleteQueue("raid");
    RemoveFirstNamedAt(before, "raid", 0);
    assert removed == None && m.queues == [second.value];
  }

  /** A user who created two queues gets both back, in creation order. */
  method UserQueuesInCreationOrder(u1: User)
  {
    var m := new QueueManager();
    var a, _ := m.CreateQueue(u1, "a");
    var b, _ := m.CreateQueue(u1, "b");
    assert a.Success? && b.Success?;
    var qa, qb := a.value, b.value;
    assert qa.members == [u1.id] && qb.members == [u1.id];
    assert [] + [qa] == [qa] && [qa] + [qb] == m.queues;
    QueuesWithMemberSnoc([], qa, u1.id);
    QueuesWithMemberSnoc([qa], qb, u1.id);
    var mine := m.GetUserQueues(u1);
    assert mine == [qa, qb];
  }

  /** Leaving a queue takes the user out of it; leaving a queue one is not in fails. */
  method LeaveQueue(u1: User, u2: User)
    requires u1.id != u2.id
  {
    var q := new Queue(u1.id, "a", u1.guild);
    var joined := q.AddMember(u2.id);
    assert q.members == [u2.id];
    var stranger := q.RemoveMember(u1.id);
    assert stranger == Fail(MemberNotFound(u1.id)) && q.members == [u2.id];
    var left := q.RemoveMember(u2.id);
    assert left == Pass && q.members == [];
  }
}
