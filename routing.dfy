/** Client-side navigation, recorded as the last instruction a page gave the router. */
module Routing {

  datatype Navigation =
    | Stay               // no navigation yet
    | Replaced(path: string) // router.replace(path)
    | Pushed(path: string)   // router.push(path)
    | Reloaded           // location.reload()

  const LoginPath := "/auth/login"
  const DashboardPath := "/dashboard"
  const EditorPrefix := "/dashboard/editor/"
}
