# Lwt message stubs: iovec building and SCM_RIGHTS fd passing

A Dafny model of the C marshalling layer that Lwt's Unix binding uses
between OCaml values and POSIX `struct msghdr` (`src/unix/unix_c/unix_recv_send_utils.c`):

- **Scatter/gather vectors.** `store_iovs` and `bytes_store_iovs` turn an
  OCaml list of `(buffer, offset, length)` triples into a C `iovec` array.
  They do this for OCaml strings and for Lwt bigarrays. Addresses are
  modelled as a memory region plus an offset.
- **Descriptor passing.** `wrapper_send_msg` encodes the fd list as a single
  `SOL_SOCKET`/`SCM_RIGHTS` control message. `wrapper_recv_msg` walks the
  received control messages and takes the first such message. It computes
  the fd count from `cmsg_len` and builds the OCaml list by consing from
  the last payload entry down to the first.
- **Results.** Each stub calls the system call once. A return of `-1`
  raises a Unix error. Otherwise receive returns `(ret, fds)` and send
  returns `ret`.

The control buffer is a sequence of `Cmsg(level, kind, len, data)` records,
with `CMSG_LEN(n) = CMSG_LEN(0) + n` and `CMSG_SPACE` as in section 4.3 of
RFC 2292. Constants are the LP64 Linux ones: `SOL_SOCKET = SCM_RIGHTS = 1`,
`sizeof(int) = 4`, `CMSG_LEN(0) = 16`, alignment 8. No proof depends on
these values beyond their basic arithmetic relations. `recvmsg` and
`sendmsg` are function parameters. Each receives the descriptor and the
`msghdr` model. `HAVE_FD_PASSING` is the boolean parameter `fdPassing`.

Modules: `OCamlList` (cons lists as the stubs walk them), `IoVectors`,
`Ancillary` (control messages), `RecvSend` (the two stubs).

The receive stub does not reorder anything: it walks the payload from the
last entry to the first and conses, so the list comes out in payload order;
`FdPassingRoundTrip` shows the sender's list is returned unchanged.

## Model

| member | source | states |
|---|---|---|
| IoVectors.StoreIovs | src/unix/unix_c/unix_recv_send_utils.c:40-50 | the iovec array has one entry per list element, in list order; entry i starts at byte offset_i of string i and has length length_i |
| IoVectors.BytesStoreIovs | src/unix/unix_c/unix_recv_send_utils.c:52-63 | the same for bigarray vectors; every base lies in a bigarray's data block |
| IoVectors.GatherFollowsListOrder | src/unix/unix_c/unix_recv_send_utils.c:44-47 | when the vectors lie within their buffers, every entry lies within its memory region; the bytes gathered through the array are the vectors' slices concatenated in list order, and their total is the sum of the lengths |
| Ancillary.FdCount | src/unix/unix_c/unix_recv_send_utils.c:89 | the fd count is the number of whole ints that fit in the payload length `cmsg_len - CMSG_LEN(0)` |
| Ancillary.DecodeRights | src/unix/unix_c/unix_recv_send_utils.c:86-98 | with no SOL_SOCKET/SCM_RIGHTS message the result is empty; otherwise it is the first such message's payload prefix of FdCount entries, in index order |
| Ancillary.CollectFds | src/unix/unix_c/unix_recv_send_utils.c:83-98 | the walk that stops at the first matching message, with the reverse loop that conses `fds[nfds-1]` down to `fds[0]`, yields exactly the list of DecodeRights, in index order |
| Ancillary.DecodeSkipsPrefix | src/unix/unix_c/unix_recv_send_utils.c:86-87 | control messages of another level or type before the first SCM_RIGHTS message do not change the decoded fds |
| Ancillary.DecodeIgnoresSuffix | src/unix/unix_c/unix_recv_send_utils.c:97 | once an SCM_RIGHTS message is present, messages appended after it do not change the decoded fds |
| Ancillary.RightsMessage | src/unix/unix_c/unix_recv_send_utils.c:124-132 | the encoded message has level SOL_SOCKET and type SCM_RIGHTS, is well formed, and its payload is the fd list; its `cmsg_len` is exactly `CMSG_LEN(n_fds * sizeof(int))`, so decoding it gives back exactly the number of fds |
| Ancillary.EncodeRights | src/unix/unix_c/unix_recv_send_utils.c:119-133 | an empty fd list gives no control message; a non-empty one gives exactly one well-formed SCM_RIGHTS message with `cmsg_len = CMSG_LEN(n_fds * sizeof(int))` carrying the list; decoding the result as the receive side does yields the original fd sequence |
| Ancillary.EncodedSpace | src/unix/unix_c/unix_recv_send_utils.c:120 | the control buffer is empty for no fds; otherwise it holds the encoded message's `cmsg_len` plus less than one alignment unit of padding, so only that one message |
| Ancillary.WriteFds | src/unix/unix_c/unix_recv_send_utils.c:130-132 | filling the zeroed payload element by element from the OCaml list leaves exactly the list's elements in list order |
| RecvSend.RecvHeader | src/unix/unix_c/unix_recv_send_utils.c:70-78 | the receive header carries the caller's iovecs and an empty control buffer; with fd passing it has room for one 256-fd SCM_RIGHTS message and less than one alignment unit more, and without it has no control buffer |
| RecvSend.SendHeader | src/unix/unix_c/unix_recv_send_utils.c:112-133 | the send header carries the caller's iovecs; its control data decodes to the fd list and fits in the control length; with no fds both are empty |
| RecvSend.RecvMsg | src/unix/unix_c/unix_recv_send_utils.c:65-105 | an error iff recvmsg returned -1 (raised as `Unix_error` with recvmsg's errno and "recv_msg"); otherwise the pair of recvmsg's value and the decoded fds, or the empty list when fd passing is unavailable |
| RecvSend.SendMsg | src/unix/unix_c/unix_recv_send_utils.c:107-141 | without fd passing a non-empty fd list fails with "fd_passing" not available, whatever sendmsg would do; otherwise sendmsg sees the encoded header, -1 raises `Unix_error` with sendmsg's errno and "send_msg", and any other value is returned unchanged |
| RecvSend.FdPassingRoundTrip | src/unix/unix_c/unix_recv_send_utils.c:83-133 | the OCaml list the receive stub builds from the control data the send stub encoded is the sender's list itself |

## Left out

- The `recvmsg`/`sendmsg` system calls are oracles. They return the call's value and `errno`. Kernel delivery, and the `flags` argument (always 0), are not modelled.
- How many bytes are transferred is up to the oracle. The model does not bound it by the sum of the iovec lengths.
- Whether the kernel truncates ancillary data beyond the 256-fd receive buffer is OS behaviour. It is not modelled.
- RecvMsg: requires, when fd passing is available, that a successful `recvmsg` delivers well-formed control messages. This means `cmsg_len >= CMSG_LEN(0)` and the payload holds every counted fd. The code relies on this without checking it.
- SendMsg: requires `n_fds` to equal the length of the fd list. The code writes every list element whatever `n_fds` says, so a longer list would overrun the control buffer.
- StoreIovs and BytesStoreIovs: require each vector to lie within its buffer. The stubs do not check bounds; that check happens in their OCaml callers, which are not part of this model.
- The iovec array is returned as a sequence. The C code writes it into a caller-allocated array.
- `CMSG_SPACE` padding bytes and `memset` zeroing are not modelled as memory. Control data is a sequence of message records, and only its total size is kept.
- `int` widths are not modelled. The model does not truncate OCaml ints (`Int_val`) to C `int`, `ret` from `ssize_t` to `int`, or `cmsg_len` arithmetic to `size_t`. Descriptors and byte counts are small.
- OCaml runtime plumbing (`CAMLparam`, `CAMLlocal`, `caml_alloc_tuple`, `Store_field`, `Val_int`) has no behaviour to state.
- The Windows build gate (lines 26 and 142) is not modelled.
- Blocking/non-blocking dispatch, the would-block retry, job execution, cancellation and argument validation raising `Invalid_argument` are not part of this model. None of these appears in unix_recv_send_utils.c.
