/** The channel as the program has it: two ends, and the code each coroutine runs between two awaits.  Every
    handler is one step of `Relay`, so an object's life is a run and the theorems about runs hold of its fields.
    `doAuth` accepts every non-empty datagram, so its refusal is not spelled out. */
module Channel {
  import opened Bytes
  import opened Numbers
  import opened Relay
  import opened RelayRuns

  class CEnd {
    var auth: bool
    var isOpen: bool
    var owned: bool
    var remote: Endpoint
    var buf: seq<byte>

    ghost function Now(): End
      reads this
    {
      End(auth, isOpen, owned, remote, buf)
    }

    constructor (addr: int, buf: seq<byte>)
      ensures Now() == End(false, true, true, Endpoint(addr, 0), buf)
    {
      auth, isOpen, owned := false, true, true;
      remote := Endpoint(addr, 0);
      this.buf := buf;
    }

    method Stop()
      modifies this
      ensures Now() == Close(old(Now()))
    {
      isOpen, owned := false, false;
    }

    /** Connecting opens a closed socket, if the system can. */
    method Connect(reopens: bool)
      modifies this`isOpen
      ensures Now() == old(Now()).(isOpen := old(isOpen) || reopens)
    {
      if !isOpen {
        isOpen := reopens;
      }
    }

    /** The weak reference to the owner no longer leads anywhere. */
    method Disown()
      modifies this`owned
      ensures Now() == old(Now()).(owned := false)
    {
      owned := false;
    }

    /** What the socket does to the buffer when a datagram arrives. */
    method Fill(payload: seq<byte>)
      requires |payload| <= |buf|
      modifies this`buf
      ensures buf == Store(old(buf), payload)
    {
      buf := payload + buf[|payload|..];
    }

    method ZeroBuf()
      modifies this`buf
      ensures buf == Zeros(|old(buf)|)
    {
      buf := seq(|buf|, _ => 0);
    }
  }

  class CChannel {
    const src: CEnd
    const dst: CEnd
    var started: bool
    var upBytes: int
    var upPacks: int
    var downBytes: int
    var downPacks: int
    /** What has happened and which operations are outstanding; the fields above are not looked up here. */
    ghost var trace: State
    ghost const init: State
    ghost var history: seq<Event>

    ghost function Now(): State
      reads this, src, dst
    {
      trace.(started := started, src := src.Now(), dst := dst.Now(),
             upFlow := trace.upFlow.(bytes := upBytes, packs := upPacks),
             downFlow := trace.downFlow.(bytes := downBytes, packs := downPacks))
    }

    /** The channel is where the run of everything that has happened to it leads. */
    ghost predicate Valid()
      reads this, src, dst
    {
      src != dst && IsStart(init) && Now() == After(init, history)
    }

    constructor (srcAddr: int, dstAddr: int, srcBuf: seq<byte>, dstBuf: seq<byte>)
      ensures Valid() && Now() == Start(srcAddr, dstAddr, srcBuf, dstBuf) && history == []
      ensures fresh(src) && fresh(dst)
    {
      src := new CEnd(srcAddr, srcBuf);
      dst := new CEnd(dstAddr, dstBuf);
      started, upBytes, upPacks, downBytes, downPacks := true, 0, 0, 0, 0;
      trace := Start(srcAddr, dstAddr, srcBuf, dstBuf);
      init, history := Start(srcAddr, dstAddr, srcBuf, dstBuf), [];
    }

    /** The end of a handler: what it did was the step for `e`. */
    ghost method Record(e: Event, before: State)
      requires src != dst && IsStart(init) && before == After(init, history)
      requires Possible(before, e) && Now() == Act(before, e)
      modifies this`trace, this`history
      ensures Valid() && Now() == Step(before, e) && history == old(history) + [e]
    {
      hide Act, Possible, IsStart;
      ghost var act := Now();
      AfterSnoc(init, history, e);
      history := history + [e];
      trace := trace.(clock := before.clock + 1);
      assert Now() == act.(clock := before.clock + 1);
    }

    /** What the fields tell of the whole life of the channel: the counters count what was sent, and the channel
        has been torn down once if it is no longer started, telling each end that had not lost its session. */
    lemma FieldsTellAll()
      requires Valid()
      ensures var up, down := Now().upFlow, Now().downFlow;
        && upBytes == Total(up.sent) % UINT64 && upPacks == |up.sent| % UINT64
        && downBytes == Total(down.sent) % UINT64 && downPacks == |down.sent| % UINT64
        && |up.outcomes| <= |up.accepted| && up.sent == Delivered(up.accepted, up.outcomes)
        && |down.outcomes| <= |down.accepted| && down.sent == Delivered(down.accepted, down.outcomes)
        && AllWitnessed(init, history, up.accepted, true) && AllFrom(up.accepted, Now().pinned)
        && AllWitnessed(init, history, down.accepted, false)
        && AllTargeted(init, history, down.accepted, Now().downTo)
      ensures Now().stops == (if started then 0 else 1)
      ensures Now().srcStops == (if started || Now().srcLost then 0 else 1)
      ensures Now().dstStops == (if started || Now().dstLost then 0 else 1)
      ensures !started ==> !src.isOpen && (dst.isOpen <==> Revived(init, history))
    {
      UploadIsFaithful(init, history);
      DownloadIsFaithful(init, history);
      TeardownOnce(init, history);
      DstOpenExact(init, history);
      hide Inv, Step;
    }

    // ----- Teardown -----

    /** STOPPROXY for each end that still knows its session. */
    method TellOwners()
      modifies this`trace
      ensures trace == old(trace).(srcStops := old(trace).srcStops + if src.owned then 1 else 0,
                                   dstStops := old(trace).dstStops + if dst.owned then 1 else 0)
    {
      if src.owned {
        trace := trace.(srcStops := trace.srcStops + 1);
      }
      if dst.owned {
        trace := trace.(dstStops := trace.dstStops + 1);
      }
    }

    method StopEnds()
      requires src != dst
      modifies src, dst
      ensures src.Now() == Close(old(src.Now())) && dst.Now() == Close(old(dst.Now()))
    {
      src.Stop();
      dst.Stop();
    }

    method StopChannel()
      requires src != dst
      modifies this`started, this`trace, src, dst
      ensures Now() == Relay.Stop(old(Now()))
    {
      if started {
        started := false;
        TellOwners();
        trace := trace.(stops := trace.stops + 1);
        StopEnds();
      }
    }

    /** A posted stop request is served. */
    method ServeStop()
      requires Valid()
      modifies this, src, dst
      ensures Valid() && Now() == Step(old(Now()), ToStop) && history == old(history) + [ToStop]
    {
      hide Relay.Stop;
      ghost var before := Now();
      StopChannel();
      Record(ToStop, before);
    }

    /** An end finds its port unused for too long, or its timer broken. */
    method PortExpired(source: bool)
      requires Valid()
      modifies this, src, dst
      ensures Valid() && Now() == Step(old(Now()), Expire(source)) && history == old(history) + [Expire(source)]
    {
      ghost var before := Now();
      if source {
        trace := trace.(srcLost := trace.srcLost || started);
        src.Stop();
      } else {
        trace := trace.(dstLost := trace.dstLost || started);
        dst.Stop();
      }
      Record(Expire(source), before);
    }

    /** The session that owns an end is destroyed; the end refers to it weakly. */
    method SessionDestroyed(source: bool)
      requires Valid()
      modifies this, src, dst
      ensures Valid() && Now() == Step(old(Now()), OwnerGone(source)) && history == old(history) + [OwnerGone(source)]
    {
      ghost var before := Now();
      if source {
        trace := trace.(srcLost := trace.srcLost || started);
        src.Disown();
      } else {
        trace := trace.(dstLost := trace.dstLost || started);
        dst.Disown();
      }
      Record(OwnerGone(source), before);
    }

    // ----- The uploader -----

    /** The head of the upload loop. */
    method UploadLoop()
      modifies this`trace
      ensures Now() == UpMain(old(Now()))
    {
      trace := trace.(up := if started then Recv else Finished);
    }

    /** The head of the authentication loop, which the upload loop follows. */
    method SrcAuthLoop()
      modifies this`trace
      ensures Now() == UpAuth(old(Now()))
    {
      if started && !src.auth {
        trace := trace.(up := AuthRecv);
      } else {
        UploadLoop();
      }
    }

    method SrcAuthFailed()
      requires src != dst
      modifies this`started, this`trace, src, dst
      ensures Now() == UpRetry(old(Now()))
    {
      if !src.isOpen {
        StopChannel();
        trace := trace.(up := Finished);
        return;
      }
      SrcAuthLoop();
    }

    /** The coroutine is entered. */
    method Uploader()
      requires Valid() && trace.up.Ready?
      modifies this
      ensures Valid() && Now() == Step(old(Now()), UpResume) && history == old(history) + [UpResume]
    {
      ghost var before := Now();
      SrcAuthLoop();
      Record(UpResume, before);
    }

    method SrcAuthReceived(r: Reception)
      requires src != dst && (r.Datagram? ==> |r.payload| <= |src.buf|)
      modifies this`started, this`trace, src, dst
      ensures Now() == UpAuthReceived(old(Now()), r)
    {
      hide UpRetry, Store, Zeros;
      if r.Datagram? {
        src.remote := r.from;
      }
      if r.Failed? || |r.payload| == 0 {
        SrcAuthFailed();
      } else {
        src.Fill(r.payload);
        if dst.auth {
          src.auth := true;
          trace := trace.(pinned := r.from.addr);
        } else {
          src.ZeroBuf();
        }
        trace := trace.(up := AuthEcho(|r.payload|), upFlow := Begin(trace.upFlow, started));
      }
    }

    method OnSrcAuthReceived(r: Reception)
      requires Valid() && trace.up.AuthRecv? && (r.Datagram? ==> |r.payload| <= |src.buf|)
      modifies this, src, dst
      ensures Valid() && Now() == Step(old(Now()), UpReceived(r)) && history == old(history) + [UpReceived(r)]
    {
      ghost var before := Now();
      UpHandlers(before, r, true);
      assert Possible(before, UpReceived(r)) && before.up == trace.up;
      hide Act, After, Now, UpAuthReceived, UpDataReceived, UpEchoed, UpRelayed;
      SrcAuthReceived(r);
      Record(UpReceived(r), before);
    }

    method SrcAuthEchoed(ok: bool)
      requires src != dst
      modifies this`started, this`trace, src, dst
      ensures Now() == UpEchoed(old(Now()), ok)
    {
      hide UpAuth, UpRetry;
      if !ok {
        src.auth := false;
        SrcAuthFailed();
      } else {
        SrcAuthLoop();
      }
    }

    method OnSrcAuthEchoed(ok: bool)
      requires Valid() && trace.up.AuthEcho?
      modifies this, src, dst
      ensures Valid() && Now() == Step(old(Now()), UpSent(ok)) && history == old(history) + [UpSent(ok)]
    {
      ghost var before := Now();
      UpHandlers(before, Failed, ok);
      assert Possible(before, UpSent(ok)) && before.up == trace.up;
      hide Act, After, Now, UpAuthReceived, UpDataReceived, UpEchoed, UpRelayed;
      SrcAuthEchoed(ok);
      Record(UpSent(ok), before);
    }

    method UploadReceived(r: Reception)
      requires src != dst && (r.Datagram? ==> |r.payload| <= |src.buf|)
      modifies this`started, this`trace, src, dst
      ensures Now() == UpDataReceived(old(Now()), r)
    {
      hide UpMain, Relay.Stop, Store;
      if r.Failed? || |r.payload| == 0 {
        if !src.isOpen {
          StopChannel();
        }
        UploadLoop();
      } else {
        src.Fill(r.payload);
        if r.from.addr != src.remote.addr {
          UploadLoop();
        } else {
          if r.from != src.remote {
            src.remote := src.remote.(port := r.from.port);
          }
          if |r.payload| <= 2 {
            UploadLoop();
          } else {
            trace := trace.(
              up := Send(|r.payload|),
              upFlow := Begin(Accept(trace.upFlow, r.payload, r.from, trace.clock), started));
          }
        }
      }
    }

    method OnUploadReceived(r: Reception)
      requires Valid() && trace.up.Recv? && (r.Datagram? ==> |r.payload| <= |src.buf|)
      modifies this, src, dst
      ensures Valid() && Now() == Step(old(Now()), UpReceived(r)) && history == old(history) + [UpReceived(r)]
    {
      ghost var before := Now();
      UpHandlers(before, r, true);
      assert Possible(before, UpReceived(r)) && before.up == trace.up;
      hide Act, After, Now, UpAuthReceived, UpDataReceived, UpEchoed, UpRelayed;
      UploadReceived(r);
      Record(UpReceived(r), before);
    }

    /** `n` is the number of bytes that were being sent. */
    method UploadSent(n: nat, ok: bool)
      requires src != dst && n <= |src.buf|
      modifies this`upBytes, this`upPacks, this`started, this`trace, src, dst
      ensures Now() == UpRelayed(old(Now()), n, ok)
    {
      hide UpMain, Relay.Stop;
      trace := trace.(upFlow := Complete(trace.upFlow, ok, src.buf[..n]));
      if !ok {
        if !dst.isOpen {
          StopChannel();
        }
      } else {
        upBytes := (upBytes + n) % UINT64;
        upPacks := (upPacks + 1) % UINT64;
      }
      UploadLoop();
    }

    method OnUploadSent(n: nat, ok: bool)
      requires Valid() && trace.up == Send(n) && n <= |src.buf|
      modifies this, src, dst
      ensures Valid() && Now() == Step(old(Now()), UpSent(ok)) && history == old(history) + [UpSent(ok)]
    {
      ghost var before := Now();
      UpHandlers(before, Failed, ok);
      assert Possible(before, UpSent(ok)) && before.up == trace.up;
      hide Act, After, Now, UpAuthReceived, UpDataReceived, UpEchoed, UpRelayed;
      UploadSent(n, ok);
      Record(UpSent(ok), before);
    }

    // ----- The downloader -----

    /** The head of the download loop. */
    method DownloadLoop()
      modifies this`trace
      ensures Now() == DownMain(old(Now()))
    {
      trace := trace.(down := if started then Recv else Finished);
    }

    /** The head of the authentication loop, which the connect and the download loop follow. */
    method DstAuthLoop(reopens: bool)
      requires src != dst
      modifies this`trace, dst
      ensures Now() == DownAuth(old(Now()), reopens)
    {
      if started && !dst.auth {
        trace := trace.(down := AuthRecv);
      } else {
        dst.Connect(reopens);
        DownloadLoop();
      }
    }

    method DstAuthFailed()
      requires src != dst
      modifies this`started, this`trace, src, dst
      ensures Now() == DownRetry(old(Now()))
    {
      if !dst.isOpen {
        StopChannel();
        trace := trace.(down := Finished);
        return;
      }
      DstAuthLoop(false);
    }

    /** The coroutine is entered. */
    method Downloader(reopens: bool)
      requires Valid() && trace.down.Ready?
      modifies this, dst
      ensures Valid() && Now() == Step(old(Now()), DownResume(reopens))
      ensures history == old(history) + [DownResume(reopens)]
    {
      ghost var before := Now();
      DstAuthLoop(reopens);
      Record(DownResume(reopens), before);
    }

    method DstAuthReceived(r: Reception)
      requires src != dst && (r.Datagram? ==> |r.payload| <= |dst.buf|)
      modifies this`started, this`trace, src, dst
      ensures Now() == DownAuthReceived(old(Now()), r)
    {
      hide DownRetry, Store;
      if r.Datagram? {
        dst.remote := r.from;
      }
      if r.Failed? || |r.payload| == 0 {
        DstAuthFailed();
      } else {
        dst.Fill(r.payload);
        dst.auth := true;
        trace := trace.(down := AuthEcho(|r.payload|), downFlow := Begin(trace.downFlow, started));
      }
    }

    method OnDstAuthReceived(r: Reception)
      requires Valid() && trace.down.AuthRecv? && (r.Datagram? ==> |r.payload| <= |dst.buf|)
      modifies this, src, dst
      ensures Valid() && Now() == Step(old(Now()), DownReceived(r)) && history == old(history) + [DownReceived(r)]
    {
      ghost var before := Now();
      DownHandlers(before, r, true, false);
      assert Possible(before, DownReceived(r)) && before.down == trace.down;
      hide Act, After, Now, DownAuthReceived, DownDataReceived, DownEchoed, DownRelayed;
      DstAuthReceived(r);
      Record(DownReceived(r), before);
    }

    method DstAuthEchoed(ok: bool, reopens: bool)
      requires src != dst
      modifies this`started, this`trace, src, dst
      ensures Now() == DownEchoed(old(Now()), ok, reopens)
    {
      hide DownAuth, DownRetry;
      if !ok {
        DstAuthFailed();
      } else {
        DstAuthLoop(reopens);
      }
    }

    method OnDstAuthEchoed(ok: bool, reopens: bool)
      requires Valid() && trace.down.AuthEcho?
      modifies this, src, dst
      ensures Valid() && Now() == Step(old(Now()), DownSent(ok, reopens))
      ensures history == old(history) + [DownSent(ok, reopens)]
    {
      ghost var before := Now();
      DownHandlers(before, Failed, ok, reopens);
      assert Possible(before, DownSent(ok, reopens)) && before.down == trace.down;
      hide Act, After, Now, DownAuthReceived, DownDataReceived, DownEchoed, DownRelayed;
      DstAuthEchoed(ok, reopens);
      Record(DownSent(ok, reopens), before);
    }

    method DownloadReceived(r: Reception)
      requires src != dst && (r.Datagram? ==> |r.payload| <= |dst.buf|)
      modifies this`started, this`trace, src, dst
      ensures Now() == DownDataReceived(old(Now()), r)
    {
      hide DownMain, Relay.Stop, Store;
      if r.Failed? || |r.payload| == 0 {
        if !dst.isOpen {
          StopChannel();
        }
        DownloadLoop();
      } else {
        dst.Fill(r.payload);
        if |r.payload| <= 2 {
          DownloadLoop();
        } else {
          trace := trace.(
            down := Send(|r.payload|), downTo := trace.downTo + [src.remote],
            downFlow := Begin(Accept(trace.downFlow, r.payload, r.from, trace.clock), started));
        }
      }
    }

    method OnDownloadReceived(r: Reception)
      requires Valid() && trace.down.Recv? && (r.Datagram? ==> |r.payload| <= |dst.buf|)
      modifies this, src, dst
      ensures Valid() && Now() == Step(old(Now()), DownReceived(r)) && history == old(history) + [DownReceived(r)]
    {
      ghost var before := Now();
      DownHandlers(before, r, true, false);
      assert Possible(before, DownReceived(r)) && before.down == trace.down;
      hide Act, After, Now, DownAuthReceived, DownDataReceived, DownEchoed, DownRelayed;
      DownloadReceived(r);
      Record(DownReceived(r), before);
    }

    /** `n` is the number of bytes that were being sent. */
    method DownloadSent(n: nat, ok: bool)
      requires src != dst && n <= |dst.buf|
      modifies this`downBytes, this`downPacks, this`started, this`trace, src, dst
      ensures Now() == DownRelayed(old(Now()), n, ok)
    {
      hide DownMain, Relay.Stop;
      trace := trace.(downFlow := Complete(trace.downFlow, ok, dst.buf[..n]));
      if !ok {
        if !src.isOpen {
          StopChannel();
        }
      } else {
        downBytes := (downBytes + n) % UINT64;
        downPacks := (downPacks + 1) % UINT64;
      }
      DownloadLoop();
    }

    method OnDownloadSent(n: nat, ok: bool)
      requires Valid() && trace.down == Send(n) && n <= |dst.buf|
      modifies this, src, dst
      ensures Valid() && Now() == Step(old(Now()), DownSent(ok, false))
      ensures history == old(history) + [DownSent(ok, false)]
    {
      ghost var before := Now();
      DownHandlers(before, Failed, ok, false);
      assert Possible(before, DownSent(ok, false)) && before.down == trace.down;
      hide Act, After, Now, DownAuthReceived, DownDataReceived, DownEchoed, DownRelayed;
      DownloadSent(n, ok);
      Record(DownSent(ok, false), before);
    }
  }
}
