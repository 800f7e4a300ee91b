/** What every active object shares: the length of its event queue, and what becomes of a post. */
module ActiveObject {
  const QUEUE_LENGTH: nat := 20

  datatype PostResult = Ok | PortNotReady | QueueFull
}
