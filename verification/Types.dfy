/** The values the message layer passes around: 32-bit identifiers, messages and callbacks. */
module Types {

  datatype Option<+T> = None | Some(value: T)

  /** uint32_t: identifiers are only compared, never added, so a bounded natural is exact. */
  type U32 = n: nat | n < 0x1_0000_0000

  type TaskId = U32

  /** A function pointer, known only by its identity; NULL is `None`. */
  type Callback = nat

  /** RT_EOK and the negated error codes. */
  datatype Code = OK | EINVAL | ENOMEM | ENOENT

  /** thread_msg_t: the header's msg_len is the length of the payload. */
  datatype Msg = Msg(id: U32, publisher: TaskId, payload: seq<bv8>)
}
