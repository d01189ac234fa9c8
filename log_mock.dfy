/**
 * The log mock of the host unit tests: mocked functions write text to a
 * stream and save it as a record, tests take the records back oldest
 * first; tests hand data to mocked functions through named queues that
 * are filled at the back (or, for data given back, at the front) and
 * emptied from the front.
 *
 * The queues hold values of one type `V`: the type-checked cast out of a
 * queue, and the number formatting of the buffer loggers, are not part of
 * this model.
 */
module LogMockModel {
  import opened Common

  /** The queue of `name`, empty when there is none. */
  function Queue<V>(data: map<string, seq<V>>, name: string): seq<V>
  {
    if name in data then data[name] else []
  }

  /** `name`'s queue, created if absent, with `value` at its back; no other queue changes. */
  function Added<V>(data: map<string, seq<V>>, name: string, value: V): (r: map<string, seq<V>>)
    ensures name in r && r[name] == Queue(data, name) + [value]
    ensures forall n :: n != name ==> (n in r <==> n in data) && (n in data ==> r[n] == data[n])
  {
    data[name := Queue(data, name) + [value]]
  }

  /** `name`'s queue, created if absent, with `value` at its front; no other queue changes. */
  function Returned<V>(data: map<string, seq<V>>, name: string, value: V): (r: map<string, seq<V>>)
    ensures name in r && r[name] == [value] + Queue(data, name)
    ensures forall n :: n != name ==> (n in r <==> n in data) && (n in data ==> r[n] == data[n])
  {
    data[name := [value] + Queue(data, name)]
  }

  /**
   * Taking the front of `name`'s queue: `None` when the name is missing or
   * its queue is empty, else the front value and the queues without it.
   */
  function Popped<V>(data: map<string, seq<V>>, name: string): (r: Option<(V, map<string, seq<V>>)>)
    ensures r.None? <==> Queue(data, name) == []
    ensures r.Some? ==> r.value.0 == Queue(data, name)[0] && name in data
                        && r.value.1 == data[name := Queue(data, name)[1..]]
  {
    if name !in data then None
    else if data[name] == [] then None
    else Some((data[name][0], data[name := data[name][1..]]))
  }

  /** Data given back is the next data taken, and taking it leaves the queue as it was (created if absent). */
  lemma ReturnedIsPoppedNext<V>(data: map<string, seq<V>>, name: string, value: V)
    ensures Popped(Returned(data, name, value), name) == Some((value, data[name := Queue(data, name)]))
  {
    var r := Returned(data, name, value);
    assert r[name := r[name][1..]] == data[name := Queue(data, name)] by {
      assert ([value] + Queue(data, name))[1..] == Queue(data, name);
    }
  }

  /**
   * Queues are first in, first out: adding to a non-empty queue does not
   * change what is taken next, and adding to an empty one makes the added
   * value the next.
   */
  lemma AddedIsFifo<V>(data: map<string, seq<V>>, name: string, value: V)
    ensures var q := Queue(data, name);
      && (q != [] ==> Popped(Added(data, name, value), name) == Some((q[0], data[name := q[1..] + [value]])))
      && (q == [] ==> Popped(Added(data, name, value), name) == Some((value, data[name := []])))
  {
    var q := Queue(data, name);
    var a := Added(data, name, value);
    if q != [] {
      assert (q + [value])[1..] == q[1..] + [value];
      assert a[name := a[name][1..]] == data[name := q[1..] + [value]];
    } else {
      assert a[name][1..] == [];
      assert a[name := a[name][1..]] == data[name := []];
    }
  }

  /** Taking from one name leaves every other name's queue alone. */
  lemma PoppedOnlyTouchesName<V>(data: map<string, seq<V>>, name: string, other: string)
    requires other != name && Popped(data, name).Some?
    ensures Queue(Popped(data, name).value.1, other) == Queue(data, other)
  {
  }

  /**
   * What `printAllLogs` writes: every record, oldest first, each followed
   * by a newline.  The first line is the oldest record, so printing after
   * `popRecord` prints the same text without that first line.
   */
  function Printed(records: seq<string>): string
  {
    if records == [] then "" else records[0] + "\n" + Printed(records[1..])
  }

  /** Saving one more record prints one more line, after the others. */
  lemma {:induction false} PrintedAppend(records: seq<string>, r: string)
    ensures Printed(records + [r]) == Printed(records) + r + "\n"
  {
    if records == [] {
      assert [] + [r] == [r];
      assert [r][1..] == [];
    } else {
      assert (records + [r])[1..] == records[1..] + [r];
      PrintedAppend(records[1..], r);
    }
  }

  class LogMock<V> {
    /** `m_log_stream`, the text written since the last save. */
    var stream: string
    /** `m_logs`, the saved records, oldest first. */
    var logs: seq<string>
    /** `m_named_data` */
    var namedData: map<string, seq<V>>

    constructor ()
      ensures stream == "" && logs == [] && namedData == map[]
    {
      stream := "";
      logs := [];
      namedData := map[];
    }

    /** Writing to the stream returned by `log()`. */
    method Log(text: string)
      modifies this
      ensures stream == old(stream) + text
      ensures logs == old(logs) && namedData == old(namedData)
    {
      stream := stream + text;
    }

    /** `popRecord`: the oldest record, removed; "" with nothing changed when there is none. */
    method PopRecord() returns (log: string)
      modifies this
      ensures old(logs) == [] ==> log == "" && logs == []
      ensures old(logs) != [] ==> log == old(logs)[0] && logs == old(logs)[1..]
      ensures stream == old(stream) && namedData == old(namedData)
    {
      log := "";
      if logs != [] {
        log := logs[0];
        logs := logs[1..];
      }
    }

    /** `clearLogs`: no records, and an empty stream. */
    method ClearLogs()
      modifies this
      ensures logs == [] && stream == ""
      ensures namedData == old(namedData)
    {
      logs := [];
      stream := "";
    }

    /** `saveLog`: the stream's text becomes the newest record, and the stream is emptied. */
    method SaveLog()
      modifies this
      ensures logs == old(logs) + [old(stream)] && stream == ""
      ensures namedData == old(namedData)
    {
      logs := logs + [stream];
      stream := "";
    }

    /** `addData` */
    method AddData(name: string, value: V)
      modifies this
      ensures namedData == Added(old(namedData), name, value)
      ensures logs == old(logs) && stream == old(stream)
    {
      if name !in namedData {
        namedData := namedData[name := []];
      }
      namedData := namedData[name := namedData[name] + [value]];
    }

    /** `returnData` */
    method ReturnData(name: string, value: V)
      modifies this
      ensures namedData == Returned(old(namedData), name, value)
      ensures logs == old(logs) && stream == old(stream)
    {
      if name !in namedData {
        namedData := namedData[name := []];
      }
      namedData := namedData[name := [value] + namedData[name]];
    }

    /**
     * `popData`: `false`, with `popVar` handed back untouched, when the name
     * is missing or its queue is empty; else `true` and the front value,
     * which is removed.
     */
    method PopData(name: string, popVar: V) returns (found: bool, out: V)
      modifies this
      ensures found <==> Popped(old(namedData), name).Some?
      ensures !found ==> out == popVar && namedData == old(namedData)
      ensures found ==> (out, namedData) == Popped(old(namedData), name).value
      ensures logs == old(logs) && stream == old(stream)
    {
      if name !in namedData {
        return false, popVar;
      }
      if namedData[name] == [] {
        return false, popVar;
      }
      out := namedData[name][0];
      namedData := namedData[name := namedData[name][1..]];
      return true, out;
    }

    /** `clearData`: no named queue is left. */
    method ClearData()
      modifies this
      ensures namedData == map[]
      ensures logs == old(logs) && stream == old(stream)
    {
      namedData := map[];
    }

    /** `printAllLogs`: the records, in order, one per line; they stay saved. */
    method PrintAllLogs() returns (out: string)
      ensures out == Printed(logs)
    {
      out := "";
      for i := 0 to |logs|
        invariant out == Printed(logs[..i])
      {
        PrintedAppend(logs[..i], logs[i]);
        assert logs[..i + 1] == logs[..i] + [logs[i]];
        out := out + logs[i] + "\n";
      }
      assert logs[..|logs|] == logs;
    }
  }
}
