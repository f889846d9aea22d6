/** Ordering messages by `createdAt` ascending, ties kept in store order:
    the `.sort({ createdAt: 1 })` of the message query. */
module Chronology {
  import opened Domain
  import opened Seqs

  predicate Chronological(s: seq<Message>) {
    forall i, j :: 0 <= i < j < |s| ==> s[i].createdAt <= s[j].createdAt
  }

  /** The messages stamped at instant `t`. */
  function At(t: Time): Message -> bool {
    (m: Message) => m.createdAt == t
  }

  /** Puts `m` before the first message not older than it. */
  function Insert(m: Message, s: seq<Message>): (r: seq<Message>)
    ensures |r| == |s| + 1
  {
    if s == [] || m.createdAt <= s[0].createdAt then [m] + s
    else [s[0]] + Insert(m, s[1..])
  }

  /** Inserting adds exactly `m` to the multiset of messages. */
  lemma {:induction false} InsertPermutes(m: Message, s: seq<Message>)
    ensures multiset(Insert(m, s)) == multiset(s) + multiset{m}
  {
    if s != [] && m.createdAt > s[0].createdAt {
      InsertPermutes(m, s[1..]);
      assert s == [s[0]] + s[1..];
    }
  }

  /** Inserting into an ordered sequence keeps it ordered. */
  lemma {:induction false} InsertChronological(m: Message, s: seq<Message>)
    requires Chronological(s)
    ensures Chronological(Insert(m, s))
  {
    if s != [] && m.createdAt > s[0].createdAt {
      var rest := Insert(m, s[1..]);
      InsertChronological(m, s[1..]);
      InsertPermutes(m, s[1..]);
      forall i | 0 <= i < |rest| ensures s[0].createdAt <= rest[i].createdAt {
        assert rest[i] in multiset(rest);
        if rest[i] != m {
          assert rest[i] in multiset(s[1..]);
          var k :| 0 <= k < |s[1..]| && s[1..][k] == rest[i];
          assert s[k + 1] == rest[i];
        }
      }
    }
  }

  /** Insertion sort by timestamp. */
  function SortByTime(s: seq<Message>): (r: seq<Message>)
    ensures Chronological(r)
  {
    if s == [] then []
    else
      InsertChronological(s[0], SortByTime(s[1..]));
      Insert(s[0], SortByTime(s[1..]))
  }

  /** The sort neither loses nor invents messages. */
  lemma {:induction false} SortPermutes(s: seq<Message>)
    ensures multiset(SortByTime(s)) == multiset(s)
  {
    if s != [] {
      SortPermutes(s[1..]);
      InsertPermutes(s[0], SortByTime(s[1..]));
      assert s == [s[0]] + s[1..];
    }
  }

  /** Inserting `m` leaves the messages of every instant in their order and
      puts `m` ahead of those stamped at its own instant. */
  lemma {:induction false} InsertAt(m: Message, s: seq<Message>, t: Time)
    ensures Filter(Insert(m, s), At(t))
         == if m.createdAt == t then [m] + Filter(s, At(t)) else Filter(s, At(t))
  {
    if s == [] || m.createdAt <= s[0].createdAt {
      assert ([m] + s)[1..] == s;
    } else {
      var rest := Insert(m, s[1..]);
      assert ([s[0]] + rest)[1..] == rest;
      InsertAt(m, s[1..], t);
    }
  }

  /** The sort is stable: for every instant, the messages stamped with it
      keep their store order. */
  lemma {:induction false} SortStable(s: seq<Message>, t: Time)
    ensures Filter(SortByTime(s), At(t)) == Filter(s, At(t))
  {
    if s != [] {
      SortStable(s[1..], t);
      InsertAt(s[0], SortByTime(s[1..]), t);
    }
  }
}
