/** The ring buffer behind the request queues. */
module CircularQueue {
  import opened Wrappers

  datatype Error = QueueIsEmpty

  class CircularQueue<T(0)> {
    var head: int
    var tail: int
    const max: int
    const arr: array<T>

    ghost predicate Valid()
      reads this
    {
      && 0 < max == arr.Length
      && ((head == -1 && tail == -1) || (0 <= head < max && 0 <= tail < max))
    }

    /** (i + 1) % max. */
    function Next(i: int): (n: int)
      requires max > 0 && -1 <= i < max
      ensures n == if i + 1 == max then 0 else i + 1
    {
      (i + 1) % max
    }

    function Length(): (n: nat)
      requires Valid()
      reads this
      ensures n <= max
    {
      if head == -1 then 0 else if head <= tail then tail - head + 1 else tail - head + max + 1
    }

    /** The queued items, oldest first. */
    ghost function Contents(): (s: seq<T>)
      requires Valid()
      reads this, arr
      ensures |s| == Length()
    {
      if head == -1 then [] else if head <= tail then arr[head..tail + 1] else arr[head..] + arr[..tail + 1]
    }

    constructor (max: int)
      requires max > 0
      ensures Valid() && Contents() == [] && this.max == max && fresh(arr)
    {
      head, tail := -1, -1;
      this.max := max;
      arr := new T[max];
    }

    method Push(data: T) returns (ok: bool)
      requires Valid()
      modifies this, arr
      ensures Valid() && ok == (|old(Contents())| < max)
      ensures Contents() == old(Contents()) + if ok then [data] else []
    {
      if Next(tail) == head {
        return false;
      }
      ghost var before := Contents();
      if head == -1 {
        head := 0;
      }
      tail := Next(tail);
      arr[tail] := data;
      assert Contents() == before + [data];
      return true;
    }

    method Pop() returns (ok: bool)
      requires Valid()
      modifies this
      ensures Valid() && ok == (old(Contents()) != [])
      ensures Contents() == if ok then old(Contents())[1..] else []
    {
      if head == -1 {
        return false;
      }
      if head == tail {
        head, tail := -1, -1;
      } else {
        head := Next(head);
      }
      return true;
    }

    method IsEmpty() returns (b: bool)
      requires Valid()
      ensures b <==> Contents() == []
    {
      b := head == -1 && tail == -1;
    }

    method IsFull() returns (b: bool)
      requires Valid()
      ensures b <==> |Contents()| == max
    {
      b := Next(tail) == head;
    }

    method Front() returns (r: Result<T, Error>)
      requires Valid()
      ensures r == if Contents() == [] then Err(QueueIsEmpty) else Ok(Contents()[0])
    {
      if head == -1 {
        return Err(QueueIsEmpty);
      }
      return Ok(arr[head]);
    }
  }
}
