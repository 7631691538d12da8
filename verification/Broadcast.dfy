/** A subscription to a broadcast channel. */
module Broadcast {

  /** Both channels are made with this capacity. */
  const NOTIFY_CAPACITY: nat := 4096

  /** What a subscriber has not read, and whether the channel has dropped some of it. */
  datatype Receiver<T> = Receiver(unread: seq<T>, lagged: bool)

  function Push<T>(rx: Receiver<T>, x: T): Receiver<T> {
    if |rx.unread| < NOTIFY_CAPACITY then rx.(unread := rx.unread + [x])
    else Receiver(rx.unread[1..] + [x], true)
  }

  /** A push is not lost on a subscriber, and hides nothing from it unawares. */
  lemma PushReaches<T>(rx: Receiver<T>, x: T, y: T)
    ensures var u := Push(rx, x).unread; u != [] && u[|u| - 1] == x && forall i :: 0 <= i < |u| - 1 ==> u[i] in rx.unread
    ensures Push(rx, x).lagged <==> rx.lagged || |rx.unread| >= 4096
    ensures y in rx.unread || rx.lagged ==> y in Push(rx, x).unread || Push(rx, x).lagged
  {
    assert Push(rx, x).unread[|Push(rx, x).unread| - 1] == x;
  }

  /** What one `recv` gives a subscriber, or that its deadline passed first. */
  datatype Received<T> = Notified(x: T) | Lagged | Closed | TimedOut

  /** `wait_for_inbox_notification` and `wait_for_library_notification`: events are
      read up to the first that decides; `true` is for a matching one, or one that may
      have hidden a match. */
  method WaitForNotification<T(==)>(events: seq<Received<T>>, x: T) returns (woken: bool, read: nat)
    ensures read <= |events| && forall i :: 0 <= i < read - 1 ==> events[i].Notified? && events[i].x != x
    ensures woken <==> read > 0 && (events[read - 1] == Notified(x) || events[read - 1] == Lagged)
    ensures !woken ==> (read > 0 && (events[read - 1] == Closed || events[read - 1] == TimedOut))
                       || (read == |events| && forall e :: e in events ==> e.Notified? && e.x != x)
  {
    read := 0;
    while read < |events|
      invariant read <= |events| && forall i :: 0 <= i < read ==> events[i].Notified? && events[i].x != x
    {
      var e := events[read];
      read := read + 1;
      match e {
        case Notified(y) => if y == x { return true, read; }
        case Lagged => return true, read;
        case Closed => return false, read;
        case TimedOut => return false, read;
      }
    }
    woken := false;
  }
}
