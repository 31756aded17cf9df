/** The queue registry and membership engine of the Flock chat bot: a QueueManager owns an
    ordered list of Queue objects, each holding an ordered list of the users queued for
    one activity. */
module FlockUtil {
  import opened Wrappers
  import opened Seqs

  /** A chat-platform user id. */
  type UserId = string

  /** A chat-platform guild (server) id. */
  type GuildId = string

  /** The author of a command message: who they are and which guild the message came from. */
  datatype User = User(id: UserId, guild: GuildId)

  /** The failures of the queue operations. */
  datatype QueueError =
    | DuplicateMember(member: UserId)   // add_member's ValueError: the user is already queued
    | MemberNotFound(member: UserId)    // remove_member's ValueError from list.remove
    | NameGenerationExhausted           // every generated name was taken, see MAX_NAME_ATTEMPTS
    | AttributeError                    // reading `q.name`, which Queue does not define

  /** Generated queue names are NAME_LENGTH characters drawn from NAME_ALPHABET. */
  const NAME_LENGTH := 6
  const NAME_ALPHABET := "abcdefghijklmnopqrstuvwxyz0123456789"

  /** How many names CreateQueue draws before it gives up. */
  const MAX_NAME_ATTEMPTS := 100

  /** `s` has the shape of a generated queue name. */
  predicate IsGeneratedName(s: string) {
    |s| == NAME_LENGTH && forall i :: 0 <= i < |s| ==> s[i] in NAME_ALPHABET
  }

  /** The names of the queues in `qs`, in order. */
  ghost function NamesOf(qs: seq<Queue>): (ns: seq<string>)
    ensures |ns| == |qs|
    ensures forall i :: 0 <= i < |qs| ==> ns[i] == qs[i].name
  {
    if qs == [] then [] else [qs[0].name] + NamesOf(qs[1..])
  }

  /** The queues of `qs` whose member list contains `id`, in the order of `qs`. */
  ghost function QueuesWithMember(qs: seq<Queue>, id: UserId): seq<Queue>
    reads qs
  {
    if qs == [] then []
    else (if id in qs[0].members then [qs[0]] else []) + QueuesWithMember(qs[1..], id)
  }

  /** `qs` without its first queue named `n`; `qs` itself when no queue has that name. */
  ghost function RemoveFirstNamed(qs: seq<Queue>, n: string): seq<Queue>
  {
    if qs == [] then []
    else if qs[0].name == n then qs[1..]
    else [qs[0]] + RemoveFirstNamed(qs[1..], n)
  }

  /** Every queue in `qs` keeps its membership invariant. */
  ghost predicate AllValid(qs: seq<Queue>)
    reads qs
  {
    forall q :: q in qs ==> q.Valid()
  }

  /** A queue is kept by QueuesWithMember exactly when it is in `qs` and has `id` as a member. */
  lemma {:induction false} QueuesWithMemberExactly(qs: seq<Queue>, id: UserId, q: Queue)
    ensures q in QueuesWithMember(qs, id) <==> q in qs && id in q.members
  {
    if qs != [] {
      QueuesWithMemberExactly(qs[1..], id, q);
      assert q in qs <==> q == qs[0] || q in qs[1..];
    }
  }

  /** Scanning one more queue extends the result at its end, which is what keeps registry order. */
  lemma {:induction false} QueuesWithMemberSnoc(qs: seq<Queue>, q: Queue, id: UserId)
    ensures QueuesWithMember(qs + [q], id)
         == QueuesWithMember(qs, id) + (if id in q.members then [q] else [])
  {
    if qs != [] {
      assert (qs + [q])[1..] == qs[1..] + [q];
      QueuesWithMemberSnoc(qs[1..], q, id);
    } else {
      assert [q][1..] == [];
    }
  }

  /** Removing a name no queue has leaves the registry as it is. */
  lemma {:induction false} RemoveFirstNamedAbsent(qs: seq<Queue>, n: string)
    requires n !in NamesOf(qs)
    ensures RemoveFirstNamed(qs, n) == qs
  {
    if qs != [] {
      assert NamesOf(qs) == [qs[0].name] + NamesOf(qs[1..]);
      RemoveFirstNamedAbsent(qs[1..], n);
    }
  }

  /** Removing by name deletes the first queue with that name, the one at index `k`, and
      keeps the others in order. */
  lemma {:induction false} RemoveFirstNamedAt(qs: seq<Queue>, n: string, k: nat)
    requires k < |qs| && qs[k].name == n
    requires forall j :: 0 <= j < k ==> qs[j].name != n
    ensures RemoveFirstNamed(qs, n) == qs[..k] + qs[k + 1..]
  {
    if k > 0 {
      var t := qs[1..];
      RemoveFirstNamedAt(t, n, k - 1);
      assert qs[..k] == [qs[0]] + t[..k - 1];
      assert qs[k + 1..] == t[k..];
    }
  }

  /** The first queue named `n` is also the first occurrence of that queue object, so
      removing the object (what list.remove does) removes the first queue named `n`. */
  lemma FirstNamedIsFirstOccurrence(qs: seq<Queue>, n: string, k: nat)
    requires k == IndexOf(NamesOf(qs), n) && k < |qs|
    ensures qs[k].name == n
    ensures forall j :: 0 <= j < k ==> qs[j].name != n
    ensures IndexOf(qs, qs[k]) == k
  {
    assert forall j :: 0 <= j < k ==> qs[j] != qs[k] by {
      assert forall j :: 0 <= j < k ==> NamesOf(qs)[j] != n;
    }
  }

  /** Removing by name keeps only queues that were already there, so every queue left
      still keeps its membership invariant. */
  lemma {:induction false} RemoveFirstNamedKeepsValid(qs: seq<Queue>, n: string)
    requires AllValid(qs)
    ensures AllValid(RemoveFirstNamed(qs, n))
  {
    if qs != [] && qs[0].name != n {
      RemoveFirstNamedKeepsValid(qs[1..], n);
      assert forall q :: q in qs[1..] ==> q in qs;
    }
  }

  /** The names left after removing by name are the old names with `n` removed once. */
  lemma {:induction false} NamesAfterRemoveFirstNamed(qs: seq<Queue>, n: string)
    ensures NamesOf(RemoveFirstNamed(qs, n)) == RemoveFirst(NamesOf(qs), n)
  {
    if qs != [] {
      NamesAfterRemoveFirstNamed(qs[1..], n);
      assert NamesOf(qs) == [qs[0].name] + NamesOf(qs[1..]);
      if qs[0].name != n {
        assert NamesOf([qs[0]] + RemoveFirstNamed(qs[1..], n))
            == [qs[0].name] + NamesOf(RemoveFirstNamed(qs[1..], n));
      }
    }
  }

  /** When queue names are unique, deleting a name leaves no queue with that name. */
  lemma {:induction false} DeletedNameIsGone(qs: seq<Queue>, n: string)
    requires NoDuplicates(NamesOf(qs))
    ensures n !in NamesOf(RemoveFirstNamed(qs, n))
    ensures NoDuplicates(NamesOf(RemoveFirstNamed(qs, n)))
  {
    NamesAfterRemoveFirstNamed(qs, n);
    RemoveFirstNoDuplicates(NamesOf(qs), n);
  }

  /** Appending a queue whose name is not yet taken keeps queue names unique. */
  lemma {:induction false} AppendFreshNameKeepsNamesUnique(qs: seq<Queue>, q: Queue)
    requires NoDuplicates(NamesOf(qs))
    requires q.name !in NamesOf(qs)
    ensures NoDuplicates(NamesOf(qs + [q]))
  {
    assert NamesOf(qs + [q]) == NamesOf(qs) + [q.name];
    AppendAbsentNoDuplicates(NamesOf(qs), q.name);
  }

  /** One activity queue: who created it, in which guild, under which name, and who is queued. */
  class Queue {
    /** The ids of the queued users, in the order they joined. */
    var members: seq<UserId>
    const creator: UserId
    const name: string
    const guild: GuildId

    /** The membership invariant AddMember keeps: no user is queued twice. */
    ghost predicate Valid()
      reads this
    {
      NoDuplicates(members)
    }

    /** A queue with its own, empty, member list. */
    constructor (creator: UserId, name: string, guild: GuildId)
      ensures this.creator == creator && this.name == name && this.guild == guild
      ensures members == [] && Valid()
    {
      this.creator := creator;
      this.name := name;
      this.guild := guild;
      members := [];
    }

    /** A random name of NAME_LENGTH characters from NAME_ALPHABET; each character is an
        arbitrary choice, which stands for the random draw. */
    static method GenerateQueueName() returns (qname: string)
      ensures IsGeneratedName(qname)
    {
      qname := "";
      for k := 0 to NAME_LENGTH
        invariant |qname| == k
        invariant forall i :: 0 <= i < k ==> qname[i] in NAME_ALPHABET
      {
        assert NAME_ALPHABET[0] in NAME_ALPHABET;
        var c :| c in NAME_ALPHABET;
        qname := qname + [c];
      }
    }

    /** Queues `id` at the end, or fails when `id` is already queued. */
    method AddMember(id: UserId) returns (r: Outcome<QueueError>)
      modifies this
      ensures id !in old(members) ==> r == Pass && members == old(members) + [id]
      ensures id in old(members) ==> r == Fail(DuplicateMember(id)) && members == old(members)
      ensures old(Valid()) ==> Valid()
    {
      if id !in members {
        if Valid() {
          AppendAbsentNoDuplicates(members, id);
        }
        members := members + [id];
        r := Pass;
      } else {
        r := Fail(DuplicateMember(id));
      }
    }

    /** Takes the first occurrence of `id` out of the queue, or fails when `id` is not queued. */
    method RemoveMember(id: UserId) returns (r: Outcome<QueueError>)
      modifies this
      ensures id in old(members) ==> r == Pass && members == RemoveFirst(old(members), id)
      ensures id !in old(members) ==> r == Fail(MemberNotFound(id)) && members == old(members)
      ensures old(Valid()) ==> Valid() && id !in members
    {
      if Valid() {
        RemoveFirstNoDuplicates(members, id);
      }
      if id in members {
        members := RemoveFirst(members, id);
        r := Pass;
      } else {
        r := Fail(MemberNotFound(id));
      }
    }

    /** Empties the queue. */
    method ClearMembers()
      modifies this
      ensures members == [] && Valid()
    {
      members := [];
    }
  }

  /** The registry of all live queues, in creation order. */
  class QueueManager {
    var queues: seq<Queue>

    /** Every queue in the registry keeps its membership invariant. */
    ghost predicate Valid()
      reads this, queues
    {
      AllValid(queues)
    }

    constructor ()
      ensures queues == [] && Valid()
    {
      queues := [];
    }

    /** The registry's queues, in creation order. */
    function GetQueues(): (r: seq<Queue>)
      reads this
      ensures r == queues
    {
      queues
    }

    /** Appends a new queue made by `author`, named `name`, or a freshly generated name when
        `name` is empty; the author is its first member. */
    method CreateQueue(author: User, name: string) returns (r: Result<Queue, QueueError>, ghost drawn: seq<string>)
      modifies this
      ensures r.Success? ==>
        fresh(r.value) && queues == old(queues) + [r.value] &&
        r.value.creator == author.id && r.value.guild == author.guild &&
        r.value.members == [author.id]
      ensures r.Success? && name != "" ==> r.value.name == name
      ensures r.Success? && name == "" ==>
        IsGeneratedName(r.value.name) && r.value.name !in NamesOf(old(queues))
      ensures name != "" ==> r.Success? && drawn == []
      ensures forall i :: 0 <= i < |drawn| ==> IsGeneratedName(drawn[i])
      ensures r.Failure? ==>
        name == "" && r.error == NameGenerationExhausted && queues == old(queues) &&
        |drawn| == MAX_NAME_ATTEMPTS &&
        forall i :: 0 <= i < |drawn| ==> drawn[i] in NamesOf(old(queues))
      ensures r.Failure? ==>
        exists i :: 0 <= i < |old(queues)| && IsGeneratedName(old(queues)[i].name)
      ensures old(Valid()) ==> Valid()
    {
      drawn := [];
      var qname := name;
      if qname == "" {
        qname := Queue.GenerateQueueName();
        drawn := [qname];
        var attempts := 1;
        var taken := CheckQueueNameExists(qname);
        while taken
          invariant queues == old(queues)
          invariant 1 <= attempts <= MAX_NAME_ATTEMPTS
          invariant |drawn| == attempts && drawn[attempts - 1] == qname
          invariant forall i :: 0 <= i < |drawn| ==> IsGeneratedName(drawn[i])
          invariant forall i :: 0 <= i < attempts - 1 ==> drawn[i] in NamesOf(queues)
          invariant taken <==> qname in NamesOf(queues)
          decreases MAX_NAME_ATTEMPTS - attempts
        {
          if attempts == MAX_NAME_ATTEMPTS {
            ghost var k := IndexOf(NamesOf(queues), qname);
            assert queues[k].name == qname;
            return Failure(NameGenerationExhausted), drawn;
          }
          qname := Queue.GenerateQueueName();
          drawn := drawn + [qname];
          attempts := attempts + 1;
          taken := CheckQueueNameExists(qname);
        }
      }
      var queue := new Queue(author.id, qname, author.guild);
      var added := queue.AddMember(author.id);
      queues := queues + [queue];
      r := Success(queue);
    }

    /** Removes the first queue named `queueName`, if there is one. Always returns None: the
        removed queue is never handed back. */
    method DeleteQueue(queueName: string) returns (removed: Option<Queue>)
      modifies this
      ensures removed == None
      ensures queueName == "" ==> queues == old(queues)
      ensures queueName != "" ==> queues == RemoveFirstNamed(old(queues), queueName)
      ensures old(Valid()) ==> Valid()
    {
      removed := None;
      if Valid() {
        RemoveFirstNamedKeepsValid(queues, queueName);
      }
      var queue := FindQueueByName(queueName);
      if queue.Some? {
        ghost var k := IndexOf(NamesOf(queues), queueName);
        FirstNamedIsFirstOccurrence(queues, queueName, k);
        RemoveFirstNamedAt(queues, queueName, k);
        // list.remove drops the first element that is this very object
        var i := IndexOf(queues, queue.value);
        queues := queues[..i] + queues[i + 1..];
      } else if queueName != "" {
        RemoveFirstNamedAbsent(queues, queueName);
      }
    }

    /** The first queue, in registry order, named exactly `name`; None for an empty name or
        when no queue has that name. */
    method FindQueueByName(name: string) returns (r: Option<Queue>)
      ensures r.None? <==> name == "" || name !in NamesOf(queues)
      ensures r.Some? ==>
        var k := IndexOf(NamesOf(queues), name);
        k < |queues| && r.value == queues[k] && r.value.name == name
    {
      r := None;
      if |queues| != 0 && name != "" {
        for k := 0 to |queues|
          invariant r == None
          invariant forall j :: 0 <= j < k ==> queues[j].name != name
        {
          if queues[k].name == name {
            r := Some(queues[k]);
            assert IndexOf(NamesOf(queues), name) == k;
            break;
          }
        }
      }
    }

    /** Whether some queue in the registry is named `name`; false for the empty name. */
    method CheckQueueNameExists(name: string) returns (b: bool)
      ensures b <==> name != "" && name in NamesOf(queues)
    {
      if |queues| > 0 && name != "" {
        for k := 0 to |queues|
          invariant forall j :: 0 <= j < k ==> queues[j].name != name
        {
          if queues[k].name == name {
            return true;
          }
        }
      }
      return false;
    }

    /** The registry's queues that have `user` as a member, in registry order. */
    method GetUserQueues(user: User) returns (r: seq<Queue>)
      ensures r == QueuesWithMember(queues, user.id)
      ensures forall q :: q in r <==> q in queues && user.id in q.members
    {
      r := [];
      for k := 0 to |queues|
        invariant r == QueuesWithMember(queues[..k], user.id)
      {
        assert queues[..k + 1] == queues[..k] + [queues[k]];
        QueuesWithMemberSnoc(queues[..k], queues[k], user.id);
        if user.id in queues[k].members {
          r := r + [queues[k]];
        }
      }
      assert queues[..|queues|] == queues;
      forall q | true ensures q in r <==> q in queues && user.id in q.members {
        QueuesWithMemberExactly(queues, user.id, q);
      }
    }

    /** check_queue_name_exists as written: its loop reads `q.name`, which Queue never sets
        (the name lives in `_name`), so the first iteration raises AttributeError. It can
        therefore never report a taken name. */
    method CheckQueueNameExistsAsWritten(name: string) returns (r: Result<bool, QueueError>)
      ensures r.Failure? <==> |queues| > 0 && name != ""
      ensures r.Failure? ==> r.error == AttributeError
      ensures r != Success(true)
    {
      if |queues| > 0 && name != "" {
        return Failure(AttributeError);
      }
      return Success(false);
    }
  }

  /** The creator step of create_queue as written: Queue's constructor defaults `members` to a
      single list object that every queue made by create_queue shares, so the creator's id is
      appended to that shared list, and add_member fails when it is there already. */
  function SharedDefaultAddCreator(shared: seq<UserId>, creatorId: UserId): (r: Result<seq<UserId>, QueueError>)
    ensures r.Failure? <==> creatorId in shared
    ensures r.Success? ==> r.value == shared + [creatorId]
  {
    if creatorId in shared then Failure(DuplicateMember(creatorId)) else Success(shared + [creatorId])
  }

  /** Two calls of create_queue as written, by `c1` and then `c2`: both queues hold the one
      shared list, so the member lists they report afterwards are the same list. A distinct
      second creator shows up in the first queue too; the same creator twice is refused. */
  function SharedDefaultTwoCreations(c1: UserId, c2: UserId): (r: Result<(seq<UserId>, seq<UserId>), QueueError>)
    ensures c1 != c2 ==> r == Success(([c1, c2], [c1, c2]))
    ensures c1 == c2 ==> r == Failure(DuplicateMember(c1))
  {
    var shared := [];
    match SharedDefaultAddCreator(shared, c1)
    case Failure(e) => Failure(e)
    case Success(afterFirst) =>
      match SharedDefaultAddCreator(afterFirst, c2)
      case Failure(e) => Failure(e)
      case Success(afterSecond) =>
        assert afterFirst == [c1] && afterSecond == [c1, c2];
        // the first queue's `_members` and the second's are the same object
        Success((afterSecond, afterSecond))
  }
}
