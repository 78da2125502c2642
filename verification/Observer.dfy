// The observer list: one node per value, a subject that owns the tail and streams that walk the list.
module Observer {

  // `done` is the close-once channel: true once closed.
  class State<T> {
    const value: T
    var next: State?<T>
    var done: bool

    constructor (value: T)
      ensures this.value == value && next == null && !done
    {
      this.value, next, done := value, null, false;
    }

    // Closing a closed channel panics, so the node must still be open.
    method Update(value: T) returns (s: State<T>)
      requires !done
      modifies this
      ensures fresh(s) && s.value == value && s.next == null && !s.done
      ensures next == s && done
    {
      next := new State(value);
      done := true;
      s := next;
    }
  }

  // A list from its first node to its single open tail.
  ghost predicate Chain<T>(nodes: seq<State<T>>)
    reads nodes
  {
    && |nodes| > 0
    && (forall i, j :: 0 <= i < j < |nodes| ==> nodes[i] != nodes[j])
    && (forall i {:trigger nodes[i].next} :: 0 <= i < |nodes| - 1 ==> nodes[i].next == nodes[i + 1])
    && (forall i {:trigger nodes[i].done} :: 0 <= i < |nodes| - 1 ==> nodes[i].done)
    && nodes[|nodes| - 1].next == null && !nodes[|nodes| - 1].done
  }

  class Subject<T> {
    var state: State<T>
    ghost var nodes: seq<State<T>>

    ghost predicate Valid()
      reads this, nodes
    {
      Chain(nodes) && state == nodes[|nodes| - 1]
    }

    // The initial value and all updates, in order.
    ghost function History(): seq<T>
      reads this
    {
      seq(|nodes|, i requires 0 <= i < |nodes| reads this => nodes[i].value)
    }

    constructor (value: T)
      ensures Valid() && fresh(nodes) && History() == [value]
    {
      var s := new State(value);
      state, nodes := s, [s];
    }

    method Value() returns (v: T)
      requires Valid()
      ensures |History()| > 0 && v == History()[|History()| - 1]
    {
      v := state.value;
    }

    method Update(value: T)
      requires Valid()
      modifies this, state
      ensures Valid() && old(nodes) <= nodes && |nodes| == |old(nodes)| + 1 && fresh(nodes[|old(nodes)|])
      ensures History() == old(History()) + [value]
    {
      state := state.Update(value);
      nodes := nodes + [state];
    }

    // A stream starts at the current value, whatever came before.
    method Observe() returns (s: Stream<T>)
      requires Valid()
      ensures fresh(s) && s.On(this) && s.position == |nodes| - 1
    {
      s := new Stream(state, |nodes| - 1);
    }
  }

  class Stream<T> {
    var state: State<T>
    ghost var position: nat

    constructor (state: State<T>, ghost position: nat)
      ensures this.state == state && this.position == position
    {
      this.state, this.position := state, position;
    }

    ghost predicate On(subject: Subject<T>)
      reads this, subject
    {
      position < |subject.nodes| && state == subject.nodes[position]
    }

    method Value(ghost subject: Subject<T>) returns (v: T)
      requires subject.Valid() && On(subject)
      ensures v == subject.History()[position]
    {
      v := state.value;
    }

    // Whether the channel handed out by Changes is closed: exactly when an unseen update exists.
    method HasNext(ghost subject: Subject<T>) returns (b: bool)
      requires subject.Valid() && On(subject)
      ensures b <==> position + 1 < |subject.History()|
    {
      b := state.done;
    }

    // Next, and WaitNext once it stops blocking; both need a closed channel.
    method Next(ghost subject: Subject<T>) returns (v: T)
      requires subject.Valid() && On(subject) && state.done
      modifies this
      ensures On(subject) && position == old(position) + 1
      ensures v == subject.History()[position]
    {
      state := state.next;
      position := position + 1;
      v := state.value;
    }
  }

  // A late subscriber that drains its stream sees exactly the updates made after it subscribed, in order.
  method DrainAll<T>(subject: Subject<T>, s: Stream<T>) returns (seen: seq<T>)
    requires subject.Valid() && s.On(subject)
    modifies s
    ensures s.On(subject) && seen == subject.History()[old(s.position) + 1..]
  {
    seen := [];
    var more := s.HasNext(subject);
    while more
      invariant s.On(subject) && old(s.position) <= s.position
      invariant more <==> s.position + 1 < |subject.History()|
      invariant seen == subject.History()[old(s.position) + 1..s.position + 1]
      decreases |subject.nodes| - s.position
    {
      var v := s.Next(subject);
      seen := seen + [v];
      more := s.HasNext(subject);
    }
  }
}
