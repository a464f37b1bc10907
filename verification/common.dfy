/** Values shared by every page of the portal: an optional value (the pages'
    `null`-able state) and the notification a handler raises. */
module Common {

  /** A value that may be absent, as `useState<any>(null)` and `File | null`
      are in the pages. */
  datatype Option<+T> = None | Some(value: T)

  /** The user every new request and document is attributed to. */
  const DemoUser: string := "John Smith"

  /** A toast notification: its title, its description and whether it uses
      the "destructive" (error) variant. */
  datatype Toast = Toast(title: string, description: string, destructive: bool)

  function Info(title: string, description: string): Toast {
    Toast(title, description, false)
  }

  function Error(title: string, description: string): Toast {
    Toast(title, description, true)
  }
}
