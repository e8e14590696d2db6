/** The data directory as the program writes and reads it, one file step after another. */
module PersistenceIO {
  import opened Bytes
  import opened Sequences
  import opened StoreModel
  import opened Disk
  import opened Recovery
  import opened Mailboxes

  class Persistence {
    var files: FS

    /** Every file step ever taken, and the directory before the first of them. */
    ghost var log: seq<Step>
    ghost const start: FS

    ghost predicate Valid()
      reads this
    {
      files == DoAll(start, log)
    }

    constructor (files: FS)
      ensures Valid() && this.files == files && log == []
    {
      this.files, start := files, files;
      log := [];
    }

    /** The steps of `more` were carried out, each in turn. */
    twostate predicate Took(more: seq<Step>)
      reads this
    {
      && Valid()
      && files == DoAll(old(files), more)
      && log == old(log) + more
    }

    method Take(step: Step)
      requires Valid()
      modifies this
      ensures Took([step])
    {
      DoOne(files, step);
      DoAllAppend(start, log, [step]);
      match step {
        case WriteTmp(file, content) => files := files[TmpOf(file) := content];
        case Rename(file) =>
          if TmpOf(file) in files {
            files := (files - {TmpOf(file)})[file := files[TmpOf(file)]];
          }
        case Remove(file) => files := files - {file};
      }
      log := log + [step];
    }

    method WriteFileAtomic(file: File, content: Content)
      requires Valid()
      modifies this
      ensures Took(AtomicSteps(file, content))
    {
      DoTwo(files, WriteTmp(file, content), Rename(file));
      DoOne(files, WriteTmp(file, content));
      DoOne(Do(files, WriteTmp(file, content)), Rename(file));
      Assoc(log, [WriteTmp(file, content)], [Rename(file)]);
      Take(WriteTmp(file, content));
      Take(Rename(file));
    }

    /** Writes the body if it is not there yet, then the metadata. */
    method Write(m: Message)
      requires Valid()
      modifies this
      ensures Took(SaveSteps(old(files), m.Value()))
    {
      var eml, json := EmlOf(m.mailbox, m.id), JsonOf(m.mailbox, m.id);
      ghost var fs, taken, v := files, log, m.Value();
      ghost var body: seq<Step> := if eml in fs then [] else AtomicSteps(eml, Body(m.raw));
      if eml !in files {
        WriteFileAtomic(eml, Body(m.raw));
      } else {
        assert log + [] == log;
      }
      var meta := Metadata(Meta(m.id, m.mailbox, m.receivedAt, m.source, m.envelope, m.read));
      DoAllAppend(fs, body, AtomicSteps(json, meta));
      Assoc(taken, body, AtomicSteps(json, meta));
      WriteFileAtomic(json, meta);
    }

    method RemoveMessage(m: Msg)
      requires Valid()
      modifies this
      ensures Took(RemoveSteps(m))
      ensures files == old(files) - {EmlOf(m.mailbox, m.id)} - {JsonOf(m.mailbox, m.id)}
    {
      var eml, json := EmlOf(m.mailbox, m.id), JsonOf(m.mailbox, m.id);
      DoTwo(files, Remove(eml), Remove(json));
      DoOne(files, Remove(eml));
      DoOne(Do(files, Remove(eml)), Remove(json));
      Assoc(log, [Remove(eml)], [Remove(json)]);
      Take(Remove(eml));
      Take(Remove(json));
    }

    /** Removes several messages, oldest first. */
    method RemoveEach(gone: seq<Msg>)
      requires Valid()
      modifies this
      ensures Took(RemoveAllSteps(gone))
    {
      ghost var fs, taken := files, log;
      assert gone[..0] == [] && log + [] == log;
      for i := 0 to |gone|
        invariant Valid()
        invariant files == DoAll(fs, RemoveAllSteps(gone[..i]))
        invariant log == taken + RemoveAllSteps(gone[..i])
      {
        RemoveNext(fs, taken, gone, i);
        RemoveMessage(gone[i]);
      }
      assert gone[..|gone|] == gone;
    }

    /** Writes several messages again, oldest first. */
    method WriteEach(ms: seq<Message>)
      requires Valid()
      modifies this
      ensures Took(SaveAllSteps(old(files), Values(ms)))
    {
      ghost var fs, taken, vs := files, log, Values(ms);
      assert vs[0..] == vs && log + [] == log;
      ghost var done: seq<Step> := [];
      for i := 0 to |ms|
        invariant Valid() && files == DoAll(fs, done) && log == taken + done
        invariant done + SaveAllSteps(files, vs[i..]) == SaveAllSteps(fs, vs)
      {
        ghost var now := files;
        ghost var more := SaveSteps(now, vs[i]);
        assert vs[i..][1..] == vs[i + 1..] && vs[i..][0] == vs[i];
        Write(ms[i]);
        DoAllAppend(fs, done, more);
        Assoc(taken, done, more);
        Assoc(done, more, SaveAllSteps(files, vs[i + 1..]));
        done := done + more;
      }
      assert done + [] == done;
    }

    /** A delivery: the new message first, then the evicted ones go. */
    method SaveDelivery(m: Message, gone: seq<Msg>)
      requires Valid()
      modifies this
      ensures Took(SaveSteps(old(files), m.Value()) + RemoveAllSteps(gone))
    {
      ghost var fs, taken, save := files, log, SaveSteps(files, m.Value());
      Write(m);
      RemoveEach(gone);
      DoAllAppend(fs, save, RemoveAllSteps(gone));
      Assoc(taken, save, RemoveAllSteps(gone));
    }

    /** Reads one message; a damaged or incomplete one is an error. */
    method ReadMessage(n: string, id: ID) returns (m: Message?)
      ensures m == null <==> Read(files, n, id) == None
      ensures m != null ==> fresh(m) && Read(files, n, id) == Some(m.Value())
    {
      var json, eml := JsonOf(n, id), EmlOf(n, id);
      if json !in files || !files[json].Metadata? {
        return null;
      }
      if eml !in files || !files[eml].Body? {
        return null;
      }
      var meta := files[json].meta;
      m := new Message(id, n, meta.receivedAt, meta.source, meta.envelope, files[eml].raw, meta.read);
    }
  }

  lemma ReadOne(fs: FS, n: string, id: ID)
    ensures ReadEach(fs, n, [id]) == match Read(fs, n, id) case None => [] case Some(m) => [m]
  {
    assert [id][1..] == [];
  }

  lemma {:induction false} ReadEachAppend(fs: FS, n: string, a: seq<ID>, b: seq<ID>)
    ensures ReadEach(fs, n, a + b) == ReadEach(fs, n, a) + ReadEach(fs, n, b)
  {
    if a == [] {
      assert a + b == b;
    } else {
      var head := match Read(fs, n, a[0]) case None => [] case Some(m) => [m];
      assert (a + b)[1..] == a[1..] + b && (a + b)[0] == a[0];
      ReadEachAppend(fs, n, a[1..], b);
      Assoc(head, ReadEach(fs, n, a[1..]), ReadEach(fs, n, b));
    }
  }

  lemma ReadEachStep(fs: FS, n: string, ids: seq<ID>, i: nat)
    requires i < |ids|
    ensures ReadEach(fs, n, ids[..i + 1]) == ReadEach(fs, n, ids[..i]) + ReadEach(fs, n, [ids[i]])
  {
    assert ids[..i + 1] == ids[..i] + [ids[i]];
    ReadEachAppend(fs, n, ids[..i], [ids[i]]);
  }

  lemma RemoveNext(fs: FS, taken: seq<Step>, gone: seq<Msg>, i: nat)
    requires i < |gone|
    ensures DoAll(fs, RemoveAllSteps(gone[..i + 1])) == DoAll(DoAll(fs, RemoveAllSteps(gone[..i])), RemoveSteps(gone[i]))
    ensures taken + RemoveAllSteps(gone[..i + 1]) == (taken + RemoveAllSteps(gone[..i])) + RemoveSteps(gone[i])
  {
    assert gone[..i + 1] == gone[..i] + [gone[i]];
    RemoveAllAppend(gone[..i], gone[i]);
    DoAllAppend(fs, RemoveAllSteps(gone[..i]), RemoveSteps(gone[i]));
    Assoc(taken, RemoveAllSteps(gone[..i]), RemoveSteps(gone[i]));
  }

  lemma {:induction false} RemoveAllAppend(gone: seq<Msg>, m: Msg)
    ensures RemoveAllSteps(gone + [m]) == RemoveAllSteps(gone) + RemoveSteps(m)
  {
    if gone == [] {
      assert [] + [m] == [m] && [m][1..] == [];
      assert RemoveSteps(m) + [] == [] + RemoveSteps(m);
    } else {
      assert (gone + [m])[1..] == gone[1..] + [m] && (gone + [m])[0] == gone[0];
      RemoveAllAppend(gone[1..], m);
      Assoc(RemoveSteps(gone[0]), RemoveAllSteps(gone[1..]), RemoveSteps(m));
    }
  }
}
