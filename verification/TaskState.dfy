/**
 Scheduling states of a task.
 */
module TaskState {
  datatype State = Ready | Running | Blocked | Dead
}
