/** The two message stubs: `wrapper_recv_msg` and `wrapper_send_msg`. The
    `recvmsg` and `sendmsg` system calls are parameters (oracles) that see the
    descriptor and the `msghdr` built for them; `fdPassing` stands for the
    build-time `HAVE_FD_PASSING`. */
module RecvSend {
  import opened OCamlList
  import opened IoVectors
  import opened Ancillary

  /** The exceptions the stubs raise: `Unix.Unix_error` through `uerror`,
      carrying the system call's `errno` and the call name, and the "not
      available" failure. */
  datatype Error = UnixError(errno: int, call: string) | NotAvailable(feature: string)

  datatype Result<T> = Ok(value: T) | Err(error: Error)

  /** The part of `struct msghdr` the stubs fill: the iovec array, the
      control buffer's size (`msg_controllen`) and its contents. */
  datatype MsgHdr = MsgHdr(iov: seq<IoVec>, controlLen: nat, control: seq<Cmsg>)

  /** What `recvmsg` hands back: its return value, `errno` as the call left
      it, and the control messages the kernel placed in the buffer. */
  datatype Received = Received(ret: int, errno: int, control: seq<Cmsg>)

  /** What `sendmsg` hands back: its return value and `errno` as the call left it. */
  datatype Sent = Sent(ret: int, errno: int)

  /** The receive buffer is sized for this many descriptors. */
  const RecvFdCapacity: nat := 256

  /** The kernel's side of the contract: on success it delivers well-formed
      control messages. */
  predicate Delivered(got: Received)
  {
    got.ret != -1 ==> WellFormedControl(got.control)
  }

  /** The `msghdr` passed to `recvmsg`: zeroed, the caller's iovecs, and, when
      fd passing is available, an empty control buffer with room for one
      message of `RecvFdCapacity` descriptors and its padding, no more. */
  function RecvHeader(fdPassing: bool, iovs: seq<IoVec>): (h: MsgHdr)
    ensures h.iov == iovs && h.control == []
    ensures fdPassing ==> CmsgLen(RecvFdCapacity * SizeOfInt) <= h.controlLen
    ensures fdPassing ==> h.controlLen < CmsgLen(RecvFdCapacity * SizeOfInt) + CmsgAlignment
    ensures !fdPassing ==> h.controlLen == 0
  {
    MsgHdr(iovs, if fdPassing then CmsgSpace(RecvFdCapacity * SizeOfInt) else 0, [])
  }

  /** The `msghdr` passed to `sendmsg`. Without fd passing only an empty fd
      list ever reaches the call. */
  function SendHeader(fdPassing: bool, iovs: seq<IoVec>, fds: seq<int>): (h: MsgHdr)
    requires fdPassing || |fds| == 0
    ensures h.iov == iovs
    ensures WellFormedControl(h.control) && DecodeRights(h.control) == fds
    ensures forall i :: 0 <= i < |h.control| ==> h.control[i].len <= h.controlLen
    ensures |fds| == 0 ==> h.control == [] && h.controlLen == 0
  {
    MsgHdr(iovs, EncodedSpace(fds), EncodeRights(fds))
  }

  /** `wrapper_recv_msg`: call `recvmsg` once, fail on `-1`, otherwise return
      the byte count with the descriptors of the first `SCM_RIGHTS` message in
      the order they were placed, or none when fd passing is unavailable. */
  method RecvMsg(fdPassing: bool, fd: int, iovs: seq<IoVec>, recvmsg: (int, MsgHdr) -> Received)
    returns (r: Result<(int, List<int>)>)
    requires fdPassing ==> Delivered(recvmsg(fd, RecvHeader(fdPassing, iovs)))
    ensures r.Err? <==> recvmsg(fd, RecvHeader(fdPassing, iovs)).ret == -1
    ensures r.Err? ==> r.error == UnixError(recvmsg(fd, RecvHeader(fdPassing, iovs)).errno, "recv_msg")
    ensures r.Ok? ==> r.value.0 == recvmsg(fd, RecvHeader(fdPassing, iovs)).ret
    ensures r.Ok? && fdPassing ==>
              ToSeq(r.value.1) == DecodeRights(recvmsg(fd, RecvHeader(fdPassing, iovs)).control)
    ensures r.Ok? && !fdPassing ==> r.value.1 == Nil
  {
    var msg := MsgHdr(iovs, 0, []);
    if fdPassing {
      msg := msg.(controlLen := CmsgSpace(RecvFdCapacity * SizeOfInt));
    }
    var got := recvmsg(fd, msg);
    if got.ret == -1 {
      return Err(UnixError(got.errno, "recv_msg"));
    }
    var list := Nil;
    if fdPassing {
      list := CollectFds(got.control);
    }
    r := Ok((got.ret, list));
  }

  /** `wrapper_send_msg`: without fd passing a non-empty fd list fails before
      any system call; otherwise build the control data, call `sendmsg` once,
      fail on `-1` and return its value unchanged. */
  method SendMsg(fdPassing: bool, fd: int, iovs: seq<IoVec>, nFds: int, fdsVal: List<int>,
                 sendmsg: (int, MsgHdr) -> Sent)
    returns (r: Result<int>)
    requires nFds == Length(fdsVal)
    ensures !fdPassing && nFds > 0 ==> r == Err(NotAvailable("fd_passing"))
    ensures fdPassing || nFds == 0 ==>
              var sent := sendmsg(fd, SendHeader(fdPassing, iovs, ToSeq(fdsVal)));
              && (r.Err? <==> sent.ret == -1)
              && (r.Err? ==> r.error == UnixError(sent.errno, "send_msg"))
              && (r.Ok? ==> r.value == sent.ret)
  {
    var msg := MsgHdr(iovs, 0, []);
    if fdPassing {
      if nFds > 0 {
        var data := WriteFds(nFds, fdsVal);
        var cm := Cmsg(SolSocket, ScmRights, CmsgLen(nFds * SizeOfInt), data);
        msg := msg.(controlLen := CmsgSpace(nFds * SizeOfInt), control := [cm]);
      }
    } else if nFds > 0 {
      return Err(NotAvailable("fd_passing"));
    }
    assert msg == SendHeader(fdPassing, iovs, ToSeq(fdsVal));
    var sent := sendmsg(fd, msg);
    if sent.ret == -1 {
      return Err(UnixError(sent.errno, "send_msg"));
    }
    r := Ok(sent.ret);
  }

  /** Descriptors passed by the send stub come out of the receive stub as
      the same OCaml list, when the kernel delivers the control data as sent. */
  lemma {:induction false} FdPassingRoundTrip(iovs: seq<IoVec>, fdsVal: List<int>, received: List<int>)
    requires ToSeq(received) == DecodeRights(SendHeader(true, iovs, ToSeq(fdsVal)).control)
    ensures received == fdsVal
  {
    ToSeqInjective(received, fdsVal);
  }
}
