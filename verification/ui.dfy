/** What the client components show besides their own state: the toast, if any. */
module Ui {
  datatype Notice =
    | NoNotice
    | SuccessToast(message: string)
    | ErrorToast(message: string)
}
