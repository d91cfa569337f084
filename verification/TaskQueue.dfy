/**
 The circular queue of commands between the epoll thread and the workers.
 */
module TaskQueue {
  import opened Common

  datatype Task = Task(client: nat, command: string)

  class TaskQueue {
    const tasks: array<Task>
    var head: nat
    var tail: nat
    var count: nat

    ghost predicate Valid()
      reads this
    {
      && tasks.Length == MAX_QUEUED_TASKS
      && head < MAX_QUEUED_TASKS && count <= MAX_QUEUED_TASKS
      && tail == Around(MAX_QUEUED_TASKS, head, count)
    }

    // The waiting tasks, first come first.
    ghost function Waiting(): (q: seq<Task>)
      requires Valid()
      reads this, tasks
      ensures |q| == count
    {
      seq(count, i requires 0 <= i < count && Valid() reads this, tasks => tasks[Around(MAX_QUEUED_TASKS, head, i)])
    }

    constructor ()
      ensures Valid() && fresh(tasks) && Waiting() == []
    {
      tasks := new Task[MAX_QUEUED_TASKS](_ => Task(0, ""));
      head, tail, count := 0, 0, 0;
    }

    method Enqueue(task: Task) returns (ok: bool)
      requires Valid()
      modifies this, tasks
      ensures Valid()
      ensures ok <==> |old(Waiting())| < 256
      ensures Waiting() == if ok then old(Waiting()) + [task] else old(Waiting())
    {
      if count == MAX_QUEUED_TASKS {
        return false;
      }
      ghost var before := Waiting();
      assert forall i | 0 <= i < count :: Around(MAX_QUEUED_TASKS, head, i) != tail;
      tasks[tail] := task;
      tail := (tail + 1) % MAX_QUEUED_TASKS;
      count := count + 1;
      assert Waiting()[..count - 1] == before;
      assert Waiting() == Waiting()[..count - 1] + [task];
      return true;
    }

    method Dequeue() returns (task: Task)
      requires Valid() && Waiting() != []
      modifies this
      ensures Valid()
      ensures old(Waiting()) == [task] + Waiting()
    {
      ghost var before := Waiting();
      task := tasks[head];
      head := (head + 1) % MAX_QUEUED_TASKS;
      count := count - 1;
      forall i | 0 <= i < count
        ensures Waiting()[i] == before[i + 1]
      {
        assert Around(MAX_QUEUED_TASKS, head, i) == Around(MAX_QUEUED_TASKS, old(head), i + 1);
      }
      assert before == [task] + before[1..];
      assert before[1..] == Waiting();
    }
  }
}
