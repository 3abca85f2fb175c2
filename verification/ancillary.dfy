/** Ancillary data of `struct msghdr` as laid out by POSIX `<sys/socket.h>`:
    a sequence of `cmsghdr` records walked with `CMSG_FIRSTHDR` and
    `CMSG_NXTHDR`, and the one kind the stubs use, `SCM_RIGHTS` at level
    `SOL_SOCKET`, whose payload is an array of C `int` descriptors. */
module Ancillary {
  import opened OCamlList

  /** Values of LP64 Linux. Nothing proved below depends on them beyond
      `SizeOfInt` being positive and `CmsgAlignment` dividing `CmsgHdrLen`. */
  const SolSocket: int := 1
  const ScmRights: int := 1
  const SizeOfInt: nat := 4
  /** `CMSG_LEN(0)`: the aligned size of the `cmsghdr` header. */
  const CmsgHdrLen: nat := 16
  /** The alignment `CMSG_ALIGN` rounds up to (`sizeof(size_t)`). */
  const CmsgAlignment: nat := 8

  /** `CMSG_ALIGN(n)`: the least multiple of the alignment that is at least `n`. */
  function CmsgAlign(n: nat): (a: nat)
    ensures a % CmsgAlignment == 0
    ensures n <= a < n + CmsgAlignment
  {
    (n + CmsgAlignment - 1) / CmsgAlignment * CmsgAlignment
  }

  /** `CMSG_LEN(n)`: the `cmsg_len` of a message carrying `n` payload bytes
      (section 4.3 of RFC 2292). */
  function CmsgLen(n: nat): nat
  {
    CmsgHdrLen + n
  }

  /** `CMSG_SPACE(n)`: the buffer room one such message takes, padding included. */
  function CmsgSpace(n: nat): (s: nat)
    ensures CmsgLen(n) <= s < CmsgLen(n) + CmsgAlignment
  {
    CmsgAlign(CmsgHdrLen) + CmsgAlign(n)
  }

  /** One control message. `kind` is `cmsg_type`; `data` is the payload read
      as C `int`s, which is how the stubs read `CMSG_DATA` for `SCM_RIGHTS`. */
  datatype Cmsg = Cmsg(level: int, kind: int, len: nat, data: seq<int>)

  predicate IsRights(cm: Cmsg)
  {
    cm.level == SolSocket && cm.kind == ScmRights
  }

  /** What the kernel guarantees of a message it delivers: the length covers
      the header and, for `SCM_RIGHTS`, the payload holds every counted fd. */
  predicate WellFormed(cm: Cmsg)
  {
    && CmsgLen(0) <= cm.len
    && (IsRights(cm) ==> (cm.len - CmsgLen(0)) / SizeOfInt <= |cm.data|)
  }

  predicate WellFormedControl(ctrl: seq<Cmsg>)
  {
    forall i :: 0 <= i < |ctrl| ==> WellFormed(ctrl[i])
  }

  /** `(cmsg_len - CMSG_LEN(0)) / sizeof(int)`: the number of whole `int`s the
      payload length holds. */
  function FdCount(cm: Cmsg): (n: nat)
    requires CmsgLen(0) <= cm.len
    ensures n * SizeOfInt <= cm.len - CmsgLen(0) < (n + 1) * SizeOfInt
  {
    (cm.len - CmsgLen(0)) / SizeOfInt
  }

  /** No message of `ctrl` is an `SCM_RIGHTS` message. */
  predicate NoRights(ctrl: seq<Cmsg>)
  {
    forall j :: 0 <= j < |ctrl| ==> !IsRights(ctrl[j])
  }

  /** Message `k` is the first `SCM_RIGHTS` message of `ctrl`. */
  predicate FirstRightsAt(ctrl: seq<Cmsg>, k: int)
  {
    0 <= k < |ctrl| && IsRights(ctrl[k]) && NoRights(ctrl[..k])
  }

  /** The descriptors the receive stub extracts from a control buffer: those
      of the first `SCM_RIGHTS` message, in payload order, or none. */
  function DecodeRights(ctrl: seq<Cmsg>): (fds: seq<int>)
    requires WellFormedControl(ctrl)
    ensures NoRights(ctrl) ==> fds == []
    ensures forall k :: FirstRightsAt(ctrl, k) ==> fds == ctrl[k].data[..FdCount(ctrl[k])]
  {
    if |ctrl| == 0 then []
    else if IsRights(ctrl[0]) then
      assert WellFormed(ctrl[0]);
      ctrl[0].data[..FdCount(ctrl[0])]
    else
      assert forall k :: FirstRightsAt(ctrl, k) ==> k >= 1 && FirstRightsAt(ctrl[1..], k - 1) by {
        forall k | FirstRightsAt(ctrl, k)
          ensures k >= 1 && FirstRightsAt(ctrl[1..], k - 1)
        {
          assert ctrl[1..][..k - 1] == ctrl[1..k];
        }
      }
      DecodeRights(ctrl[1..])
  }

  /** The single message the send stub builds for a non-empty fd list. */
  function RightsMessage(fds: seq<int>): (cm: Cmsg)
    ensures IsRights(cm) && WellFormed(cm)
    ensures cm.len == CmsgLen(|fds| * SizeOfInt)
    ensures FdCount(cm) == |fds| && cm.data == fds
  {
    Cmsg(SolSocket, ScmRights, CmsgLen(|fds| * SizeOfInt), fds)
  }

  /** The control data the send stub builds: nothing for an empty fd list
      (the header stays zeroed), otherwise one `SCM_RIGHTS` message. Decoding
      it as the receive stub does gives back the descriptors in order. */
  function EncodeRights(fds: seq<int>): (ctrl: seq<Cmsg>)
    ensures WellFormedControl(ctrl)
    ensures |ctrl| == (if |fds| == 0 then 0 else 1)
    ensures forall i :: 0 <= i < |ctrl| ==>
              IsRights(ctrl[i]) && ctrl[i].len == CmsgLen(|fds| * SizeOfInt) && ctrl[i].data == fds
    ensures DecodeRights(ctrl) == fds
  {
    if |fds| == 0 then [] else [RightsMessage(fds)]
  }

  /** `msg_controllen` for the send side: room for the one message and its
      padding, and no more, or zero. */
  function EncodedSpace(fds: seq<int>): (n: nat)
    ensures |fds| == 0 ==> n == 0
    ensures |fds| > 0 ==> CmsgLen(|fds| * SizeOfInt) <= n < CmsgLen(|fds| * SizeOfInt) + CmsgAlignment
    ensures forall i :: 0 <= i < |EncodeRights(fds)| ==> EncodeRights(fds)[i].len <= n
  {
    if |fds| == 0 then 0 else CmsgSpace(|fds| * SizeOfInt)
  }

  /** Messages that are not `SCM_RIGHTS` before the first one are skipped. */
  lemma {:induction false} DecodeSkipsPrefix(pre: seq<Cmsg>, ctrl: seq<Cmsg>)
    requires WellFormedControl(pre) && WellFormedControl(ctrl) && NoRights(pre)
    ensures WellFormedControl(pre + ctrl)
    ensures DecodeRights(pre + ctrl) == DecodeRights(ctrl)
  {
    if |pre| > 0 {
      assert (pre + ctrl)[1..] == pre[1..] + ctrl;
      assert (pre + ctrl)[0] == pre[0] && !IsRights(pre[0]);
      DecodeSkipsPrefix(pre[1..], ctrl);
    } else {
      assert pre + ctrl == ctrl;
    }
  }

  /** Everything after the first `SCM_RIGHTS` message is ignored. */
  lemma {:induction false} DecodeIgnoresSuffix(ctrl: seq<Cmsg>, more: seq<Cmsg>)
    requires WellFormedControl(ctrl) && WellFormedControl(more) && !NoRights(ctrl)
    ensures WellFormedControl(ctrl + more)
    ensures DecodeRights(ctrl + more) == DecodeRights(ctrl)
  {
    assert |ctrl| > 0;
    if !IsRights(ctrl[0]) {
      assert (ctrl + more)[1..] == ctrl[1..] + more;
      assert !NoRights(ctrl[1..]) by {
        var j :| 0 <= j < |ctrl| && IsRights(ctrl[j]);
        assert ctrl[1..][j - 1] == ctrl[j];
      }
      DecodeIgnoresSuffix(ctrl[1..], more);
    }
  }

  /** The receive stub's walk over the control messages (`CMSG_FIRSTHDR`,
      `CMSG_NXTHDR`): at the first `SCM_RIGHTS` message it builds the OCaml
      list by consing payload entries from the last down to the first, then
      stops. */
  method CollectFds(ctrl: seq<Cmsg>) returns (list: List<int>)
    requires WellFormedControl(ctrl)
    ensures ToSeq(list) == DecodeRights(ctrl)
  {
    list := Nil;
    var c := 0;
    while c < |ctrl|
      invariant 0 <= c <= |ctrl|
      invariant NoRights(ctrl[..c])
      invariant list == Nil
    {
      var cm := ctrl[c];
      if IsRights(cm) {
        assert WellFormed(cm);
        var fds := cm.data;
        var nfds: int := FdCount(cm);
        var i := nfds - 1;
        while i >= 0
          invariant -1 <= i < nfds
          invariant ToSeq(list) == fds[i + 1 .. nfds]
        {
          list := Cons(fds[i], list);
          i := i - 1;
        }
        assert FirstRightsAt(ctrl, c);
        return;
      }
      assert ctrl[..c + 1] == ctrl[..c] + [cm];
      c := c + 1;
    }
    assert ctrl[..c] == ctrl;
  }

  /** The send stub's fill of the zeroed payload (`memset`, then one `int`
      per list element in list order). `n` is the payload size in `int`s. */
  method WriteFds(n: nat, fdsVal: List<int>) returns (data: seq<int>)
    requires Length(fdsVal) == n
    ensures data == ToSeq(fdsVal)
  {
    data := seq(n, _ => 0);
    var list := fdsVal;
    var k := 0;
    while list.Cons?
      invariant 0 <= k <= n && |data| == n
      invariant ToSeq(fdsVal) == ToSeq(fdsVal)[..k] + ToSeq(list)
      invariant data[..k] == ToSeq(fdsVal)[..k]
      decreases Length(list)
    {
      data := data[k := list.head];
      list := list.tail;
      k := k + 1;
    }
    assert data == data[..k];
  }
}
