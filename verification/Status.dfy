/** The error numbers of status.h; functions return them negated. */
module Status {
  const EIO := 1
  const EINVARG := 2
  const ENOMEM := 3
  const EBADPATH := 4
}
